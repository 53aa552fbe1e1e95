/** Machine words as bit strings. The string of a word lists `low` of it and of its successive
    halves; the lemmas over an abstract word type say how that string follows the word operations,
    and the ones over bv32 apply them. Keeping the word type abstract keeps the solver out of
    the individual bits. */
module WordBits {
  import opened CyclicCode

  // ---------------------------------------------------------------------------------------
  //  Any word type
  // ---------------------------------------------------------------------------------------

  function Listing<W>(low: W -> bool, half: W -> W, w: W, n: nat): (bits: Bits)
    ensures |bits| == n
    decreases n
  {
    if n == 0 then [] else [low(w)] + Listing(low, half, half(w), n - 1)
  }

  function Halved<W>(half: W -> W, w: W, n: nat): W
    decreases n
  {
    if n == 0 then w else Halved(half, half(w), n - 1)
  }

  lemma {:induction false} ListingOfSum<W(!new)>(low: W -> bool, half: W -> W, sum: (W, W) -> W, v: W, w: W, n: nat)
    requires forall x, y :: low(sum(x, y)) == (low(x) != low(y))
    requires forall x, y :: half(sum(x, y)) == sum(half(x), half(y))
    ensures Listing(low, half, sum(v, w), n) == Xor(Listing(low, half, v, n), Listing(low, half, w, n))
    decreases n
  {
    if n > 0 {
      ListingOfSum(low, half, sum, half(v), half(w), n - 1);
    }
  }

  lemma {:induction false} ListingSplits<W>(low: W -> bool, half: W -> W, w: W, m: nat, n: nat)
    ensures Listing(low, half, w, m + n) == Listing(low, half, w, m) + Listing(low, half, Halved(half, w, m), n)
    decreases m
  {
    if m > 0 {
      ListingSplits(low, half, half(w), m - 1, n);
    }
  }

  lemma {:induction false} ListingDetermines<W(!new)>(low: W -> bool, half: W -> W, v: W, w: W, n: nat)
    requires forall x, y :: low(x) == low(y) && half(x) == half(y) ==> x == y
    requires Halved(half, v, n) == Halved(half, w, n)
    requires Listing(low, half, v, n) == Listing(low, half, w, n)
    ensures v == w
    decreases n
  {
    if n > 0 {
      var a, b := Listing(low, half, v, n), Listing(low, half, w, n);
      assert a[0] == b[0] && a[1..] == b[1..];
      ListingDetermines(low, half, half(v), half(w), n - 1);
    }
  }

  lemma {:induction false} HalvedTwice<W>(half: W -> W, w: W, m: nat, n: nat)
    ensures Halved(half, w, m + n) == Halved(half, Halved(half, w, m), n)
    decreases m
  {
    if m > 0 {
      HalvedTwice(half, half(w), m - 1, n);
    }
  }

  lemma HalvedEightTimes<W>(half: W -> W, w: W)
    ensures Halved(half, w, 8) == half(half(half(half(half(half(half(half(w))))))))
  {
    HalvedTwice(half, w, 4, 4);
  }

  /** Masking keeps the bits below a run of ones. */
  lemma {:induction false} ListingMasked<W(!new)>(low: W -> bool, half: W -> W, and: (W, W) -> W, w: W, mask: W, n: nat)
    requires forall x, y :: low(and(x, y)) == (low(x) && low(y))
    requires forall x, y :: half(and(x, y)) == and(half(x), half(y))
    requires Listing(low, half, mask, n) == Ones(n)
    ensures Listing(low, half, and(w, mask), n) == Listing(low, half, w, n)
    decreases n
  {
    if n > 0 {
      assert low(mask) by { assert Listing(low, half, mask, n)[0]; }
      assert Listing(low, half, half(mask), n - 1) == Listing(low, half, mask, n)[1..] == Ones(n - 1);
      ListingMasked(low, half, and, half(w), half(mask), n - 1);
    }
  }

  // ---------------------------------------------------------------------------------------
  //  32-bit words
  // ---------------------------------------------------------------------------------------

  predicate Low(x: bv32) { x & 1 != 0 }
  function Half(x: bv32): bv32 { x >> 1 }
  function Sum(x: bv32, y: bv32): bv32 { x ^ y }
  function And(x: bv32, y: bv32): bv32 { x & y }

  /** The bits of a word, lowest first. */
  function Word(x: bv32): (bits: Bits)
    ensures |bits| == 32
  {
    Listing(Low, Half, x, 32)
  }

  lemma LowOfSum(x: bv32, y: bv32)
    ensures Low(Sum(x, y)) == (Low(x) != Low(y))
  {}

  lemma HalfOfSum(x: bv32, y: bv32)
    ensures Half(Sum(x, y)) == Sum(Half(x), Half(y))
  {}

  lemma WordOfXor(x: bv32, y: bv32)
    ensures Word(x ^ y) == Xor(Word(x), Word(y))
  {
    forall a, b ensures Low(Sum(a, b)) == (Low(a) != Low(b)) { LowOfSum(a, b); }
    forall a, b ensures Half(Sum(a, b)) == Sum(Half(a), Half(b)) { HalfOfSum(a, b); }
    ListingOfSum(Low, Half, Sum, x, y, 32);
  }

  lemma LowOfAnd(x: bv32, y: bv32)
    ensures Low(And(x, y)) == (Low(x) && Low(y))
  {}

  lemma HalfOfAnd(x: bv32, y: bv32)
    ensures Half(And(x, y)) == And(Half(x), Half(y))
  {}

  lemma LowAndHalfDetermine(x: bv32, y: bv32)
    requires Low(x) == Low(y) && Half(x) == Half(y)
    ensures x == y
  {}

  lemma HalfEightTimes(x: bv32)
    ensures Half(Half(Half(Half(Half(Half(Half(Half(x)))))))) == x >> 8
  {}

  lemma HalvedByte(x: bv32)
    ensures Halved(Half, x, 8) == x >> 8
  {
    HalvedEightTimes(Half, x);
    HalfEightTimes(x);
  }

  function HalfEight(x: bv32): bv32 {
    x >> 8
  }

  lemma HalvedByEight(x: bv32)
    ensures Halved(Half, x, 8) == HalfEight(x)
  {
    HalvedByte(x);
  }

  lemma FourBytesOut(x: bv32)
    ensures HalfEight(HalfEight(HalfEight(HalfEight(x)))) == 0
  {}

  lemma HalvedFourTimes<W>(half: W -> W, w: W, w1: W, w2: W, w3: W, w4: W)
    requires Halved(half, w, 8) == w1 && Halved(half, w1, 8) == w2
    requires Halved(half, w2, 8) == w3 && Halved(half, w3, 8) == w4
    ensures Halved(half, w, 32) == w4
  {
    HalvedTwice(half, w, 8, 8);
    HalvedTwice(half, w, 16, 8);
    HalvedTwice(half, w, 24, 8);
  }

  lemma NothingIsLeft(x: bv32)
    ensures Halved(Half, x, 32) == 0
  {
    hide HalfEight, Half;
    var y, z := HalfEight(x), HalfEight(HalfEight(x));
    HalvedByEight(x);
    HalvedByEight(y);
    HalvedByEight(z);
    HalvedByEight(HalfEight(z));
    HalvedFourTimes(Half, x, y, z, HalfEight(z), HalfEight(HalfEight(z)));
    FourBytesOut(x);
  }

  lemma {:induction false} BitsOfZero(n: nat)
    ensures Listing(Low, Half, 0, n) == Zeros(n)
    decreases n
  {
    if n > 0 {
      assert Half(0) == 0;
      BitsOfZero(n - 1);
    }
  }

  lemma WordOfHalf(x: bv32)
    ensures Word(x >> 1) == Word(x)[1..] + [false]
  {
    ListingSplits(Low, Half, Half(x), 31, 1);
    NothingIsLeft(x);
    BitsOfZero(1);
  }

  lemma WordOfShiftedByte(x: bv32)
    ensures Word(x >> 8) == Word(x)[8..] + Zeros(8)
  {
    ListingSplits(Low, Half, x, 8, 24);
    HalvedByte(x);
    ListingSplits(Low, Half, x >> 8, 24, 8);
    HalvedTwice(Half, x, 8, 24);
    NothingIsLeft(x);
    BitsOfZero(8);
  }

  lemma WordDetermines(x: bv32, y: bv32)
    requires Word(x) == Word(y)
    ensures x == y
  {
    forall a, b | Low(a) == Low(b) && Half(a) == Half(b) ensures a == b { LowAndHalfDetermine(a, b); }
    NothingIsLeft(x);
    NothingIsLeft(y);
    ListingDetermines(Low, Half, x, y, 32);
  }

  lemma ByteMaskIsOnes()
    ensures Listing(Low, Half, 0xFF as bv32, 8) == Ones(8)
  {
    assert Listing(Low, Half, 0xFF as bv32, 8)
        == [Low(0xFF), Low(0x7F), Low(0x3F), Low(0x1F)] + Listing(Low, Half, 0xF as bv32, 4);
  }

  lemma MaskedByte(x: bv32)
    ensures And(x, 0xFF) == x & 0xFF
    ensures And(x, 0xFF) >> 8 == 0
  {}

  lemma BitsOfMaskedByte(x: bv32)
    ensures Listing(Low, Half, And(x, 0xFF), 8) == Listing(Low, Half, x, 8)
  {
    forall a, b ensures Low(And(a, b)) == (Low(a) && Low(b)) { LowOfAnd(a, b); }
    forall a, b ensures Half(And(a, b)) == And(Half(a), Half(b)) { HalfOfAnd(a, b); }
    ByteMaskIsOnes();
    ListingMasked(Low, Half, And, x, 0xFF, 8);
  }

  /** A word below 256 has its bits in the first eight places. */
  lemma WordOfByte(x: bv32)
    requires x >> 8 == 0
    ensures Word(x) == Listing(Low, Half, x, 8) + Zeros(24)
  {
    ListingSplits(Low, Half, x, 8, 24);
    HalvedByte(x);
    BitsOfZero(24);
  }

  /** The lowest byte of a word is the word's first eight bits. */
  lemma WordOfLowestByte(x: bv32)
    ensures Word(And(x, 0xFF)) == Word(x)[..8] + Zeros(24)
  {
    BitsOfMaskedByte(x);
    MaskedByte(x);
    WordOfByte(And(x, 0xFF));
    ListingSplits(Low, Half, x, 8, 24);
  }

  lemma ShiftByShift(x: bv32)
    ensures (x >> 8) >> 8 == x >> 16
    ensures (x >> 16) >> 8 == x >> 24
  {}

  lemma HalvedSecondByte(x: bv32, y: bv32, z: bv32)
    requires y == x >> 8 && z == x >> 16
    ensures Halved(Half, y, 8) == z
  {
    ShiftByShift(x);
    HalvedByte(y);
  }

  lemma HalvedThirdByte(x: bv32, y: bv32, z: bv32)
    requires y == x >> 16 && z == x >> 24
    ensures Halved(Half, y, 8) == z
  {
    ShiftByShift(x);
    HalvedByte(y);
  }

  lemma HalvedInSteps<W>(half: W -> W, w: W, w1: W, w2: W, w3: W)
    requires Halved(half, w, 8) == w1 && Halved(half, w1, 8) == w2 && Halved(half, w2, 8) == w3
    ensures Halved(half, w, 16) == w2 && Halved(half, w, 24) == w3
  {
    HalvedTwice(half, w, 8, 8);
    HalvedTwice(half, w, 16, 8);
  }

  lemma HalvedBytes(x: bv32)
    ensures Halved(Half, x, 8) == x >> 8
    ensures Halved(Half, x, 16) == x >> 16
    ensures Halved(Half, x, 24) == x >> 24
  {
    HalvedByte(x);
    HalvedSecondByte(x, x >> 8, x >> 16);
    HalvedThirdByte(x, x >> 16, x >> 24);
    HalvedInSteps(Half, x, x >> 8, x >> 16, x >> 24);
  }

  function InBytes<W>(low: W -> bool, half: W -> W, a: W, b: W, c: W, d: W): Bits {
    Listing(low, half, a, 8) + Listing(low, half, b, 8) + Listing(low, half, c, 8) + Listing(low, half, d, 8)
  }

  lemma ListingInBytes<W>(low: W -> bool, half: W -> W, w: W)
    ensures Listing(low, half, w, 32)
         == InBytes(low, half, w, Halved(half, w, 8), Halved(half, w, 16), Halved(half, w, 24))
  {
    ListingSplits(low, half, w, 8, 24);
    ListingSplits(low, half, Halved(half, w, 8), 8, 16);
    HalvedTwice(half, w, 8, 8);
    ListingSplits(low, half, Halved(half, w, 16), 8, 8);
    HalvedTwice(half, w, 16, 8);
  }

  /** A word byte by byte. */
  lemma WordInBytes(x: bv32)
    ensures Word(x) == InBytes(Low, Half, x, x >> 8, x >> 16, x >> 24)
  {
    HalvedBytes(x);
    ListingInBytes(Low, Half, x);
  }
}
