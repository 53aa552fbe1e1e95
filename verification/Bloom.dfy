/** The keyword filter of subscribe.rs: a Bloom filter on 64-bit words with double hashing. */
module Bloom {
  import opened MachineTypes

  // ---------------------------------------------------------------------------------------
  //  Words
  // ---------------------------------------------------------------------------------------

  function Twice(word: bv64): bv64 {
    word << 1
  }

  /** One, shifted left by k places. */
  function OneBit(k: nat): bv64 {
    if k == 0 then 1 else Twice(OneBit(k - 1))
  }

  function And(word: bv64, mask: bv64): bv64 {
    word & mask
  }

  function Or(word: bv64, mask: bv64): bv64 {
    word | mask
  }

  predicate HasBit(word: bv64, k: nat) {
    And(word, OneBit(k)) != 0
  }

  lemma TwiceMeets(a: bv64, b: bv64)
    requires And(a, b) == 0
    ensures And(Twice(a), Twice(b)) == 0
  {}

  lemma OneMeets(a: bv64)
    ensures And(Twice(a), 1) == 0 && And(1, Twice(a)) == 0
  {}

  lemma {:induction false} DifferentBits(j: nat, k: nat)
    requires j != k
    ensures And(OneBit(k), OneBit(j)) == 0
  {
    hide And, Twice;
    if j == 0 {
      OneMeets(OneBit(k - 1));
    } else if k == 0 {
      OneMeets(OneBit(j - 1));
    } else {
      DifferentBits(j - 1, k - 1);
      TwiceMeets(OneBit(k - 1), OneBit(j - 1));
    }
  }

  lemma TopBit()
    ensures OneBit(63) != 0
  {
    assert OneBit(8) == 0x100;
    assert OneBit(16) == 0x1_0000;
    assert OneBit(24) == 0x100_0000;
    assert OneBit(32) == 0x1_0000_0000;
    assert OneBit(40) == 0x100_0000_0000;
    assert OneBit(48) == 0x1_0000_0000_0000;
    assert OneBit(56) == 0x100_0000_0000_0000;
  }

  lemma TwiceZero()
    ensures Twice(0) == 0
  {}

  /** No bit of a word is shifted out. */
  lemma {:induction false} BitIsNotZero(k: nat)
    requires k < 64
    ensures OneBit(k) != 0
    decreases 64 - k
  {
    hide Twice;
    if k == 63 {
      TopBit();
    } else {
      BitIsNotZero(k + 1);
      TwiceZero();
    }
  }

  lemma MeetsItself(word: bv64)
    ensures And(word, word) == word
  {}

  lemma MissesFirst(word: bv64, a: bv64, b: bv64)
    requires And(Or(word, a), b) == 0
    ensures And(word, b) == 0
  {}

  lemma MissesSecond(word: bv64, a: bv64, b: bv64)
    requires And(Or(word, a), b) == 0
    ensures And(a, b) == 0
  {}

  lemma MissesBoth(word: bv64, a: bv64, b: bv64)
    requires And(word, b) == 0
    requires And(a, b) == 0
    ensures And(Or(word, a), b) == 0
  {}

  lemma OrMeets(word: bv64, a: bv64, b: bv64)
    ensures And(Or(word, a), b) == 0 <==> And(word, b) == 0 && And(a, b) == 0
  {
    hide And, Or;
    if And(Or(word, a), b) == 0 {
      MissesFirst(word, a, b);
      MissesSecond(word, a, b);
    }
    if And(word, b) == 0 && And(a, b) == 0 {
      MissesBoth(word, a, b);
    }
  }

  lemma OrSetsOneBit(word: bv64, j: nat, k: nat)
    requires j < 64 && k < 64
    ensures HasBit(Or(word, OneBit(k)), j) <==> HasBit(word, j) || j == k
  {
    hide OneBit, And, Or;
    OrMeets(word, OneBit(k), OneBit(j));
    if j == k {
      BitIsNotZero(k);
      MeetsItself(OneBit(k));
    } else {
      DifferentBits(j, k);
    }
  }

  lemma ZeroHasNoBit(k: nat)
    ensures !HasBit(0, k)
  {
    hide OneBit, And;
    ZeroMeets(OneBit(k));
  }

  lemma ZeroMeets(mask: bv64)
    ensures And(0, mask) == 0
  {}

  // ---------------------------------------------------------------------------------------
  //  Indices
  // ---------------------------------------------------------------------------------------

  /** The two hashes of a keyword. */
  type Hashing = string -> (U64, U64)

  /** h1 + i * h2 with wrap-around at 64 bits, reduced to the size of the filter. */
  function Index(hash: Hashing, numBits: nat, item: string, i: nat): (index: nat)
    requires numBits > 0
    ensures index < numBits
  {
    (hash(item).0 + i * hash(item).1) % U64_LIMIT % numBits
  }

  function Indices(hash: Hashing, numBits: nat, item: string, count: nat): set<nat>
    requires numBits > 0
  {
    set i | 0 <= i < count :: Index(hash, numBits, item, i)
  }

  // ---------------------------------------------------------------------------------------
  //  The filter
  // ---------------------------------------------------------------------------------------

  /** What a filter answers, as a function of the bits set, the number of keywords put in and its
      size. */
  datatype Filter = Filter(bits: set<nat>, itemCount: nat, numBits: nat, numHashes: nat)

  predicate IsSized(f: Filter) {
    f.numBits > 0
  }

  function Inserted(hash: Hashing, f: Filter, item: string): Filter
    requires IsSized(f)
  {
    f.(bits := f.bits + Indices(hash, f.numBits, item, f.numHashes), itemCount := f.itemCount + 1)
  }

  predicate Contains(hash: Hashing, f: Filter, item: string)
    requires IsSized(f)
  {
    f.itemCount != 0 && Indices(hash, f.numBits, item, f.numHashes) <= f.bits
  }

  predicate ContainsAny(hash: Hashing, f: Filter, items: seq<string>)
    requires IsSized(f)
  {
    exists item :: item in items && Contains(hash, f, item)
  }

  class BloomFilter {
    const hash: Hashing
    const numBits: nat
    const numHashes: nat
    const bits: array<bv64>
    var itemCount: nat

    ghost predicate Valid()
      reads this, bits
    {
      numBits > 0 && bits.Length * 64 >= numBits
    }

    predicate IsSet(p: nat)
      requires Valid() && p < numBits
      reads this, bits
    {
      HasBit(bits[p / 64], p % 64)
    }

    ghost function Value(): (f: Filter)
      requires Valid()
      reads this, bits
      ensures IsSized(f)
    {
      Filter((set p | 0 <= p < numBits && IsSet(p)), itemCount, numBits, numHashes)
    }

    /** An empty filter. Its size and number of hashes come from the sizing formulas, which give
        at least 64 bits. */
    constructor (hash: Hashing, numBits: nat, numHashes: nat)
      requires numBits >= 64
      ensures Valid() && fresh(bits)
      ensures this.hash == hash && Value() == Filter({}, 0, numBits, numHashes)
    {
      this.hash := hash;
      this.numBits := numBits;
      this.numHashes := numHashes;
      bits := new bv64[(numBits + 63) / 64](_ => 0);
      itemCount := 0;
      new;
      forall p | 0 <= p < numBits ensures !IsSet(p) {
        ZeroHasNoBit(p % 64);
      }
    }

    method SetBit(p: nat)
      requires Valid() && p < numBits
      modifies bits
      ensures Value() == old(Value()).(bits := old(Value()).bits + {p})
    {
      hide HasBit, OneBit, Or;
      ghost var before := bits[..];
      bits[p / 64] := Or(bits[p / 64], OneBit(p % 64));
      forall q | 0 <= q < numBits ensures IsSet(q) <==> old(IsSet(q)) || q == p {
        if q / 64 == p / 64 {
          OrSetsOneBit(before[p / 64], q % 64, p % 64);
        }
      }
    }

    /** insert */
    method Insert(item: string)
      requires Valid()
      modifies this, bits
      ensures Valid() && Value() == Inserted(hash, old(Value()), item)
    {
      hide Index;
      ghost var before := Value();
      for i := 0 to numHashes
        invariant Value() == before.(bits := before.bits + Indices(hash, numBits, item, i))
      {
        SetBit(Index(hash, numBits, item, i));
        assert Indices(hash, numBits, item, i + 1) == Indices(hash, numBits, item, i) + {Index(hash, numBits, item, i)};
      }
      itemCount := itemCount + 1;
      assert Value().bits == before.bits + Indices(hash, numBits, item, numHashes);
    }

    /** contains */
    method Test(item: string) returns (found: bool)
      requires Valid()
      ensures found == Contains(hash, Value(), item)
    {
      hide Index;
      if itemCount == 0 {
        return false;
      }
      for i := 0 to numHashes
        invariant Indices(hash, numBits, item, i) <= Value().bits
      {
        var p := Index(hash, numBits, item, i);
        if !IsSet(p) {
          assert p in Indices(hash, numBits, item, numHashes) && p !in Value().bits;
          return false;
        }
        assert Indices(hash, numBits, item, i + 1) == Indices(hash, numBits, item, i) + {p};
      }
      return true;
    }

    /** contains_any */
    method TestAny(items: seq<string>) returns (found: bool)
      requires Valid()
      ensures found == ContainsAny(hash, Value(), items)
    {
      hide Contains;
      for i := 0 to |items|
        invariant forall j :: 0 <= j < i ==> !Contains(hash, Value(), items[j])
      {
        found := Test(items[i]);
        if found {
          return;
        }
      }
      return false;
    }
  }

  // ---------------------------------------------------------------------------------------
  //  No false negatives
  // ---------------------------------------------------------------------------------------

  function FilterOf(hash: Hashing, numBits: nat, numHashes: nat, items: seq<string>): (f: Filter)
    requires numBits > 0
    ensures f.numBits == numBits && f.numHashes == numHashes && f.itemCount == |items|
  {
    if items == [] then Filter({}, 0, numBits, numHashes)
    else Inserted(hash, FilterOf(hash, numBits, numHashes, items[..|items| - 1]), items[|items| - 1])
  }

  lemma {:induction false} FilterBits(hash: Hashing, numBits: nat, numHashes: nat, items: seq<string>, p: nat)
    requires numBits > 0
    ensures p in FilterOf(hash, numBits, numHashes, items).bits
       <==> exists item :: item in items && p in Indices(hash, numBits, item, numHashes)
  {
    hide Indices;
    if items != [] {
      FilterBits(hash, numBits, numHashes, items[..|items| - 1], p);
      assert items == items[..|items| - 1] + [items[|items| - 1]];
    }
  }

  /** A keyword tests positive exactly if something was put in and every one of its bits was set by
      some keyword put in; every keyword put in does. */
  lemma InsertedTestsPositive(hash: Hashing, numBits: nat, numHashes: nat, items: seq<string>, item: string)
    requires numBits > 0
    ensures Contains(hash, FilterOf(hash, numBits, numHashes, items), item)
       <==> && items != []
            && forall p :: p in Indices(hash, numBits, item, numHashes) ==>
                 exists other :: other in items && p in Indices(hash, numBits, other, numHashes)
    ensures item in items ==> Contains(hash, FilterOf(hash, numBits, numHashes, items), item)
  {
    hide Indices;
    forall p { FilterBits(hash, numBits, numHashes, items, p); }
  }

  /** The i-th probe of a keyword, as a walk: it starts at the first hash and each step adds the second,
      in 64 bits. */
  function Probe(hashes: (U64, U64), i: nat): nat {
    if i == 0 then hashes.0 else
      var next := Probe(hashes, i - 1) + hashes.1;
      if next < U64_LIMIT then next else next - U64_LIMIT
  }

  lemma {:induction false} WalkIsProduct(hashes: (U64, U64), i: nat)
    ensures Probe(hashes, i) == (hashes.0 + i * hashes.1) % U64_LIMIT
  {
    if i == 0 {
      assert 0 * hashes.1 == 0;
    } else {
      WalkIsProduct(hashes, i - 1);
      var before := hashes.0 + (i - 1) * hashes.1;
      assert i * hashes.1 == (i - 1) * hashes.1 + hashes.1;
      StepWraps(before, hashes.1, U64_LIMIT);
    }
  }

  lemma StepWraps(x: nat, y: nat, m: nat)
    requires y < m
    ensures (x + y) % m == var next := x % m + y; if next < m then next else next - m
  {
    var q, r := x / m, x % m;
    assert x == q * m + r;
    if r + y < m {
      RemainderIs(x + y, m, q, r + y);
    } else {
      assert (q + 1) * m == q * m + m;
      RemainderIs(x + y, m, q + 1, r + y - m);
    }
  }

  lemma RemainderIs(x: nat, m: nat, q: nat, r: nat)
    requires m > 0 && r < m && x == q * m + r
    ensures x % m == r
  {
    var p, s := x / m, x % m;
    assert x == p * m + s;
    assert (p - q) * m == r - s;
    if p > q { AtLeastOnce(p - q, m); }
    if p < q { AtLeastOnce(q - p, m); }
  }

  lemma AtLeastOnce(a: nat, m: nat)
    requires a >= 1
    ensures a * m >= m
  {}

  /** Where it falls. */
  function Place(hash: Hashing, numBits: nat, item: string, i: nat): nat
    requires numBits > 0
  {
    Probe(hash(item), i) % numBits
  }

  /** A probe of some keyword falls on the place. */
  predicate IsHit(hash: Hashing, numBits: nat, numHashes: nat, items: seq<string>, place: nat)
    requires numBits > 0
  {
    exists other, j :: other in items && 0 <= j < numHashes && Place(hash, numBits, other, j) == place
  }

  lemma HitIff(hash: Hashing, numBits: nat, numHashes: nat, items: seq<string>, place: nat)
    requires numBits > 0
    ensures IsHit(hash, numBits, numHashes, items, place)
       <==> exists other :: other in items && place in Indices(hash, numBits, other, numHashes)
  {
    hide Index, Place;
    if other, j :| other in items && 0 <= j < numHashes && Place(hash, numBits, other, j) == place {
      IndexIsProbe(hash, numBits, other, j);
      assert place in Indices(hash, numBits, other, numHashes);
    }
    if other :| other in items && place in Indices(hash, numBits, other, numHashes) {
      var j :| 0 <= j < numHashes && Index(hash, numBits, other, j) == place;
      IndexIsProbe(hash, numBits, other, j);
    }
  }

  /** So a keyword tests positive exactly if something was put in and each of its probes, as many as
      there are hash functions, falls on a place where a probe of some keyword put in fell. */
  lemma PositiveIff(hash: Hashing, numBits: nat, numHashes: nat, items: seq<string>, item: string)
    requires numBits > 0
    ensures Contains(hash, FilterOf(hash, numBits, numHashes, items), item)
       <==> && items != []
            && forall i: nat :: i < numHashes ==>
                 IsHit(hash, numBits, numHashes, items, Place(hash, numBits, item, i))
  {
    hide Index, Contains, IsHit, Place;
    InsertedTestsPositive(hash, numBits, numHashes, items, item);
    if Contains(hash, FilterOf(hash, numBits, numHashes, items), item) {
      forall i: nat | i < numHashes ensures IsHit(hash, numBits, numHashes, items, Place(hash, numBits, item, i)) {
        IndexIsProbe(hash, numBits, item, i);
        assert Index(hash, numBits, item, i) in Indices(hash, numBits, item, numHashes);
        HitIff(hash, numBits, numHashes, items, Index(hash, numBits, item, i));
      }
    }
    if forall i: nat :: i < numHashes ==> IsHit(hash, numBits, numHashes, items, Place(hash, numBits, item, i)) {
      forall p | p in Indices(hash, numBits, item, numHashes)
        ensures exists other :: other in items && p in Indices(hash, numBits, other, numHashes)
      {
        var i: nat :| i < numHashes && Index(hash, numBits, item, i) == p;
        IndexIsProbe(hash, numBits, item, i);
        HitIff(hash, numBits, numHashes, items, p);
      }
    }
  }

  lemma IndexIsProbe(hash: Hashing, numBits: nat, item: string, i: nat)
    requires numBits > 0
    ensures Index(hash, numBits, item, i) == Place(hash, numBits, item, i)
  {
    WalkIsProduct(hash(item), i);
  }
}
