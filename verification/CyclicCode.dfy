/** The mathematics of CRC-32C, over bit strings: the remainder of a message polynomial on
    division by the generator of section 12.1 of RFC 3720, the shift register that computes it
    a bit at a time, and what the register tells apart. Nothing here mentions machine words. */
module CyclicCode {

  /** Coefficients over GF(2), highest degree first, which is also transmission order. */
  type Bits = seq<bool>

  function Xor(a: Bits, b: Bits): (r: Bits)
    requires |a| == |b|
    ensures |r| == |a|
    ensures forall i :: 0 <= i < |r| ==> r[i] == (a[i] != b[i])
  {
    seq(|a|, i requires 0 <= i < |a| => a[i] != b[i])
  }

  function Zeros(n: nat): (r: Bits)
    ensures |r| == n
    ensures forall i :: 0 <= i < n ==> !r[i]
  {
    seq(n, _ => false)
  }

  function Ones(n: nat): (r: Bits)
    ensures |r| == n
    ensures forall i :: 0 <= i < n ==> r[i]
  {
    seq(n, _ => true)
  }

  function Not(a: Bits): (r: Bits)
    ensures |r| == |a|
    ensures forall i :: 0 <= i < |r| ==> r[i] == !a[i]
  {
    seq(|a|, i requires 0 <= i < |a| => !a[i])
  }

  /** x^32 + x^28 + x^27 + x^26 + x^25 + x^23 + x^22 + x^20 + x^19 + x^18 + x^14 + x^13 + x^11
      + x^10 + x^9 + x^8 + x^6 + 1, without its leading term: the bits of 0x1EDC6F41. */
  const GENERATOR: Bits :=
    [false, false, false, true, true, true, true, false]
    + [true, true, false, true, true, true, false, false]
    + [false, true, true, false, true, true, true, true]
    + [false, true, false, false, false, false, false, true]

  // ---------------------------------------------------------------------------------------
  //  Division and the register
  // ---------------------------------------------------------------------------------------

  /** One step of the long division. */
  function Divided(p: Bits): (p': Bits)
    requires |p| >= 33
    ensures |p'| == |p| - 1
  {
    (if p[0] then Xor(p[1..33], GENERATOR) else p[1..33]) + p[33..]
  }

  /** Schoolbook long division by the generator: cancel the leading term, if there is one, and
      go on with a dividend one degree lower until fewer than 33 coefficients are left. */
  function Remainder(p: Bits): (r: Bits)
    requires |p| >= 32
    ensures |r| == 32
    decreases |p|
  {
    if |p| == 32 then p else Remainder(Divided(p))
  }

  /** One clock of the register; r[0] holds the coefficient about to be divided out. */
  function Clock(r: Bits): (r': Bits)
    requires |r| == 32
    ensures |r'| == 32
  {
    if r[0] then Xor(r[1..] + [false], GENERATOR) else r[1..] + [false]
  }

  function Clocks(r: Bits, n: nat): (r': Bits)
    requires |r| == 32
    ensures |r'| == 32
    decreases n
  {
    if n == 0 then r else Clocks(Clock(r), n - 1)
  }

  /** The register after a message has been fed in one bit at a time. */
  function Feed(r: Bits, message: Bits): (r': Bits)
    requires |r| == 32
    ensures |r'| == 32
    decreases |message|
  {
    if message == [] then r else Feed(Clock(r[0 := r[0] != message[0]]), message[1..])
  }

  /** A message with 32 zeros appended and its first 32 coefficients offset by r. */
  function Offset(r: Bits, message: Bits): (p: Bits)
    requires |r| == 32
    ensures |p| == |message| + 32
  {
    var p := message + Zeros(32);
    Xor(p[..32], r) + p[32..]
  }

  /** A step of the division clocks the register. */
  lemma OffsetStep(r: Bits, message: Bits)
    requires |r| == 32 && message != []
    ensures Divided(Offset(r, message)) == Offset(Clock(r[0 := r[0] != message[0]]), message[1..])
  {
    var p := Offset(r, message);
    var next := Clock(r[0 := r[0] != message[0]]);
    assert (message + Zeros(32))[1..] == message[1..] + Zeros(32);
    assert p[33..] == (message + Zeros(32))[33..];
    assert Divided(p)[32..] == Offset(next, message[1..])[32..];
    assert Divided(p)[..32] == Offset(next, message[1..])[..32] by {
      forall i | 0 <= i < 32 ensures Divided(p)[i] == Offset(next, message[1..])[i] {
        OffsetStepAt(r, message, i);
      }
    }
  }

  lemma OffsetStepAt(r: Bits, message: Bits, i: nat)
    requires |r| == 32 && message != [] && i < 32
    ensures Divided(Offset(r, message))[i] == Offset(Clock(r[0 := r[0] != message[0]]), message[1..])[i]
  {
    assert (message + Zeros(32))[i + 1] == (message[1..] + Zeros(32))[i];
  }

  /** The shift register divides: feeding a message into r leaves the remainder of
      x^32 times the message, the offset r included. */
  lemma {:induction false} FeedIsRemainder(r: Bits, message: Bits)
    requires |r| == 32
    ensures Feed(r, message) == Remainder(Offset(r, message))
    decreases |message|
  {
    if message == [] {
      assert Offset(r, message) == r;
    } else {
      var next := Clock(r[0 := r[0] != message[0]]);
      OffsetStep(r, message);
      FeedIsRemainder(next, message[1..]);
    }
  }

  lemma {:induction false} FeedAppend(r: Bits, a: Bits, b: Bits)
    requires |r| == 32
    ensures Feed(r, a + b) == Feed(Feed(r, a), b)
    decreases |a|
  {
    if a == [] {
      assert a + b == b;
    } else {
      assert (a + b)[0] == a[0] && (a + b)[1..] == a[1..] + b;
      FeedAppend(Clock(r[0 := r[0] != a[0]]), a[1..], b);
    }
  }

  // ---------------------------------------------------------------------------------------
  //  The register is linear and loses nothing
  // ---------------------------------------------------------------------------------------

  lemma ClockIsLinear(a: Bits, b: Bits)
    requires |a| == |b| == 32
    ensures Clock(Xor(a, b)) == Xor(Clock(a), Clock(b))
  {}

  /** The outgoing coefficient can be read off the last cell, so a clock can be undone. */
  lemma ClockIsInjective(a: Bits, b: Bits)
    requires |a| == |b| == 32
    requires Clock(a) == Clock(b)
    ensures a == b
  {
    assert Clock(a)[31] == a[0] && Clock(b)[31] == b[0];
    forall i | 0 <= i < 32 ensures a[i] == b[i] {
      if i > 0 { assert Clock(a)[i - 1] == Clock(b)[i - 1]; }
    }
  }

  lemma {:induction false} ClocksAreLinear(a: Bits, b: Bits, n: nat)
    requires |a| == |b| == 32
    ensures Clocks(Xor(a, b), n) == Xor(Clocks(a, n), Clocks(b, n))
    decreases n
  {
    if n > 0 {
      ClockIsLinear(a, b);
      ClocksAreLinear(Clock(a), Clock(b), n - 1);
    }
  }

  lemma {:induction false} ClocksOneMore(r: Bits, n: nat)
    requires |r| == 32
    ensures Clocks(r, n + 1) == Clock(Clocks(r, n))
    decreases n
  {
    if n > 0 {
      ClocksOneMore(Clock(r), n - 1);
    }
  }

  /** Zeros in front are only shifted out. */
  lemma {:induction false} ClocksShift(rest: Bits, n: nat)
    requires n + |rest| == 32
    ensures Clocks(Zeros(n) + rest, n) == rest + Zeros(n)
    decreases n
  {
    if n == 0 {
      assert Zeros(0) + rest == rest + Zeros(0);
    } else {
      assert Clock(Zeros(n) + rest) == Zeros(n - 1) + (rest + [false]);
      ClocksShift(rest + [false], n - 1);
      assert rest + [false] + Zeros(n - 1) == rest + Zeros(n);
    }
  }

  /** Eight clocks act on the first eight cells and only move the others. */
  lemma EightClocks(r: Bits)
    requires |r| == 32
    ensures Clocks(r, 8) == Xor(Clocks(r[..8] + Zeros(24), 8), r[8..] + Zeros(8))
  {
    hide Clocks;
    var front, back := r[..8] + Zeros(24), Zeros(8) + r[8..];
    assert Xor(front, back) == r;
    ClocksAreLinear(front, back, 8);
    ClocksShift(r[8..], 8);
  }

  lemma {:induction false} ClocksAreInjective(a: Bits, b: Bits, n: nat)
    requires |a| == |b| == 32
    requires Clocks(a, n) == Clocks(b, n)
    ensures a == b
    decreases n
  {
    if n > 0 {
      ClocksAreInjective(Clock(a), Clock(b), n - 1);
      ClockIsInjective(a, b);
    }
  }

  lemma {:induction false} FeedIsInjective(a: Bits, b: Bits, message: Bits)
    requires |a| == |b| == 32
    requires Feed(a, message) == Feed(b, message)
    ensures a == b
    decreases |message|
  {
    if message != [] {
      var a', b' := a[0 := a[0] != message[0]], b[0 := b[0] != message[0]];
      FeedIsInjective(Clock(a'), Clock(b'), message[1..]);
      ClockIsInjective(a', b');
      forall i | 0 <= i < 32 ensures a[i] == b[i] {
        assert a'[i] == b'[i];
      }
    }
  }

  /** A word of at most 32 bits may be offset into the register all at once. */
  lemma {:induction false} FeedWord(r: Bits, word: Bits)
    requires |r| == 32 && |word| <= 32
    ensures Feed(r, word) == Clocks(Xor(r, word + Zeros(32 - |word|)), |word|)
    decreases |word|
  {
    if word == [] {
      assert Xor(r, word + Zeros(32)) == r;
    } else {
      var r' := r[0 := r[0] != word[0]];
      var rest := word[1..];
      FeedWord(Clock(r'), rest);
      ghost var shifted := [false] + rest + Zeros(31 - |rest|);
      assert Clock(shifted) == rest + Zeros(32 - |rest|);
      assert Xor(r, word + Zeros(32 - |word|)) == Xor(r', shifted);
      ClockIsLinear(r', shifted);
    }
  }

  /** Two different words of at most 32 bits take the register to different states. */
  lemma WordsAreToldApart(r: Bits, u: Bits, v: Bits)
    requires |r| == 32 && |u| == |v| <= 32
    requires Feed(r, u) == Feed(r, v)
    ensures u == v
  {
    FeedWord(r, u);
    FeedWord(r, v);
    var u', v' := u + Zeros(32 - |u|), v + Zeros(32 - |v|);
    ClocksAreInjective(Xor(r, u'), Xor(r, v'), |u|);
    forall i | 0 <= i < |u| ensures u[i] == v[i] {
      assert Xor(r, u')[i] == Xor(r, v')[i];
      assert u'[i] == u[i] && v'[i] == v[i];
    }
  }

  // ---------------------------------------------------------------------------------------
  //  The code: message, then the complement of the register
  // ---------------------------------------------------------------------------------------

  /** The checksum: the register starts at all ones and is complemented at the end. */
  function Check(message: Bits): (c: Bits)
    ensures |c| == 32
  {
    Not(Feed(Ones(32), message))
  }

  predicate IsCodeword(message: Bits, trailer: Bits)
    requires |trailer| == 32
  {
    trailer == Check(message)
  }

  /** A message and its trailer belong together exactly when feeding both leaves one fixed residue. */
  lemma CodewordsHaveOneResidue(message: Bits, trailer: Bits)
    requires |trailer| == 32
    ensures IsCodeword(message, trailer) <==> Feed(Ones(32), message + trailer) == Clocks(Ones(32), 32)
  {
    hide Feed, Clocks;
    var r := Feed(Ones(32), message);
    FeedAppend(Ones(32), message, trailer);
    FeedWord(r, trailer);
    assert trailer + Zeros(0) == trailer;
    if Clocks(Xor(r, trailer), 32) == Clocks(Ones(32), 32) {
      ClocksAreInjective(Xor(r, trailer), Ones(32), 32);
      forall i | 0 <= i < 32 ensures trailer[i] == Not(r)[i] {
        assert Xor(r, trailer)[i] == Ones(32)[i];
      }
    }
    if IsCodeword(message, trailer) {
      assert Xor(r, trailer) == Ones(32);
    }
  }

  /** u and v differ nowhere outside the 32 positions from `from` on. */
  predicate AgreeOutsideBurst(u: Bits, v: Bits, from: nat)
  {
    && |u| == |v|
    && forall i :: 0 <= i < |u| && !(from <= i < from + 32) ==> u[i] == v[i]
  }

  /** Streams that differ only in a stretch of at most 32 bits leave different registers. */
  lemma StretchesAreToldApart(r: Bits, before: Bits, u: Bits, v: Bits, after: Bits)
    requires |r| == 32 && |u| == |v| <= 32
    requires Feed(r, before + (u + after)) == Feed(r, before + (v + after))
    ensures u == v
  {
    var s := Feed(r, before);
    FeedAppend(r, before, u + after);
    FeedAppend(r, before, v + after);
    FeedAppend(s, u, after);
    FeedAppend(s, v, after);
    FeedIsInjective(Feed(s, u), Feed(s, v), after);
    WordsAreToldApart(s, u, v);
  }

  lemma AroundTheBurst(u: Bits, v: Bits, from: nat) returns (lo: nat, hi: nat)
    requires AgreeOutsideBurst(u, v, from)
    ensures lo <= hi <= |u| && hi <= lo + 32
    ensures u == u[..lo] + (u[lo..hi] + u[hi..])
    ensures v == u[..lo] + (v[lo..hi] + u[hi..])
  {
    lo := if from < |u| then from else |u|;
    hi := if from + 32 < |u| then from + 32 else |u|;
    assert forall i :: 0 <= i < lo ==> u[i] == v[i];
    assert u[..lo] == v[..lo];
    assert forall i :: hi <= i < |u| ==> u[i] == v[i];
    assert u[hi..] == v[hi..];
    assert v == v[..lo] + (v[lo..hi] + v[hi..]);
  }

  /** No error burst of up to 32 bits, wherever it falls in message and trailer, turns a
      codeword into another codeword. */
  lemma BurstsAreDetected(message: Bits, trailer: Bits, message': Bits, trailer': Bits, from: nat)
    requires |trailer| == |trailer'| == 32
    requires IsCodeword(message, trailer)
    requires AgreeOutsideBurst(message + trailer, message' + trailer', from)
    requires message + trailer != message' + trailer'
    ensures !IsCodeword(message', trailer')
  {
    var u, v := message + trailer, message' + trailer';
    var lo, hi := AroundTheBurst(u, v, from);
    CodewordsHaveOneResidue(message, trailer);
    CodewordsHaveOneResidue(message', trailer');
    if IsCodeword(message', trailer') {
      StretchesAreToldApart(Ones(32), u[..lo], u[lo..hi], v[lo..hi], u[hi..]);
      assert false;
    }
  }

  // ---------------------------------------------------------------------------------------
  //  Which errors are not detected
  // ---------------------------------------------------------------------------------------

  lemma {:induction false} FeedIsLinear(a: Bits, b: Bits, u: Bits, v: Bits)
    requires |a| == |b| == 32 && |u| == |v|
    ensures Feed(Xor(a, b), Xor(u, v)) == Xor(Feed(a, u), Feed(b, v))
    decreases |u|
  {
    hide Clock;
    if u != [] {
      var a', b' := a[0 := a[0] != u[0]], b[0 := b[0] != v[0]];
      var both := Xor(a, b)[0 := Xor(a, b)[0] != Xor(u, v)[0]];
      assert both == Xor(a', b');
      assert Xor(u, v)[1..] == Xor(u[1..], v[1..]);
      ClockIsLinear(a', b');
      FeedIsLinear(Clock(a'), Clock(b'), u[1..], v[1..]);
    }
  }

  lemma {:induction false} RemainderOfShifted(p: Bits, n: nat)
    requires |p| >= 32
    ensures Remainder(p + Zeros(n)) == Clocks(Remainder(p), n)
    decreases |p| + n
  {
    if |p| > 32 {
      var shifted := p + Zeros(n);
      assert shifted[1..33] == p[1..33] && shifted[33..] == p[33..] + Zeros(n);
      assert Divided(shifted) == Divided(p) + Zeros(n);
      RemainderOfShifted(Divided(p), n);
    } else if n == 0 {
      assert p + Zeros(0) == p;
    } else {
      var shifted := p + Zeros(n);
      assert shifted[1..33] == p[1..] + [false] && shifted[33..] == Zeros(n - 1);
      RemainderOfShifted(Clock(p), n - 1);
    }
  }

  lemma {:induction false} ClocksOfZeros(n: nat)
    ensures Clocks(Zeros(32), n) == Zeros(32)
    decreases n
  {
    if n > 0 {
      assert Clock(Zeros(32)) == Zeros(32);
      ClocksOfZeros(n - 1);
    }
  }

  lemma OffsetByZeros(message: Bits)
    ensures Offset(Zeros(32), message) == message + Zeros(32)
  {}

  /** From a cleared register a message leaves it cleared exactly if the generator divides it. */
  lemma DividesIff(message: Bits)
    requires |message| >= 32
    ensures Feed(Zeros(32), message) == Zeros(32) <==> Remainder(message) == Zeros(32)
  {
    hide Feed, Clocks, Remainder, Offset, Zeros;
    FeedIsRemainder(Zeros(32), message);
    OffsetByZeros(message);
    RemainderOfShifted(message, 32);
    ClocksOfZeros(32);
    if Clocks(Remainder(message), 32) == Zeros(32) {
      ClocksAreInjective(Remainder(message), Zeros(32), 32);
    }
  }

  lemma XorZeroIff(a: Bits, b: Bits)
    requires |a| == |b|
    ensures Xor(a, b) == Zeros(|a|) <==> a == b
  {
    if Xor(a, b) == Zeros(|a|) {
      forall i | 0 <= i < |a| ensures a[i] == b[i] { assert !Xor(a, b)[i]; }
    }
  }

  /** What a codeword is turned into is another codeword exactly if the generator divides the
      polynomial of the flipped bits: these errors, and no others, go undetected. */
  lemma UndetectedIffDivides(message: Bits, trailer: Bits, message': Bits, trailer': Bits)
    requires |trailer| == |trailer'| == 32 && |message| == |message'|
    requires IsCodeword(message, trailer)
    ensures IsCodeword(message', trailer')
       <==> Remainder(Xor(message + trailer, message' + trailer')) == Zeros(32)
  {
    hide Feed, Remainder, IsCodeword, Xor, Zeros, Ones, Clocks;
    var u, v := message + trailer, message' + trailer';
    CodewordsHaveOneResidue(message, trailer);
    CodewordsHaveOneResidue(message', trailer');
    FeedIsLinear(Ones(32), Ones(32), u, v);
    XorZeroIff(Ones(32), Ones(32));
    XorZeroIff(Feed(Ones(32), u), Feed(Ones(32), v));
    DividesIff(Xor(u, v));
  }

  /** The generator itself, leading term included, at some position of an otherwise clean string. */
  function GeneratorAt(before: nat, after: nat): (p: Bits)
    ensures |p| == before + 33 + after
  {
    Zeros(before) + ([true] + GENERATOR) + Zeros(after)
  }

  lemma {:induction false} GeneratorDivides(before: nat, after: nat)
    ensures Remainder(GeneratorAt(before, after)) == Zeros(32)
    decreases before
  {
    var p := GeneratorAt(before, after);
    if before > 0 {
      assert p[1..33] + p[33..] == p[1..];
      assert Zeros(before)[1..] == Zeros(before - 1);
      assert p[1..] == GeneratorAt(before - 1, after);
      GeneratorDivides(before - 1, after);
    } else {
      assert p[1..33] == GENERATOR && p[33..] == Zeros(after);
      XorZeroIff(GENERATOR, GENERATOR);
      RemainderOfShifted(Zeros(32), after);
      ClocksOfZeros(after);
    }
  }

  /** So 32 bits is as long as a burst may be: one of 33 that is the generator leads from every
      codeword to another, wherever it falls. */
  lemma LongerBurstGoesUndetected(message: Bits, trailer: Bits, message': Bits, trailer': Bits, before: nat, after: nat)
    requires |trailer| == |trailer'| == 32 && |message| == |message'|
    requires IsCodeword(message, trailer)
    requires Xor(message + trailer, message' + trailer') == GeneratorAt(before, after)
    ensures IsCodeword(message', trailer')
  {
    UndetectedIffDivides(message, trailer, message', trailer');
    GeneratorDivides(before, after);
  }

  /** Whether an odd number of coefficients is one. */
  predicate IsOdd(bits: Bits) {
    bits != [] && bits[0] != IsOdd(bits[1..])
  }

  lemma {:induction false} OddAppend(a: Bits, b: Bits)
    ensures IsOdd(a + b) <==> IsOdd(a) != IsOdd(b)
  {
    if a == [] {
      assert a + b == b;
    } else {
      assert (a + b)[0] == a[0] && (a + b)[1..] == a[1..] + b;
      OddAppend(a[1..], b);
    }
  }

  lemma {:induction false} OddXor(a: Bits, b: Bits)
    requires |a| == |b|
    ensures IsOdd(Xor(a, b)) <==> IsOdd(a) != IsOdd(b)
  {
    if a != [] {
      assert Xor(a, b)[1..] == Xor(a[1..], b[1..]);
      OddXor(a[1..], b[1..]);
    }
  }

  lemma {:induction false} ZerosAreEven(n: nat)
    ensures !IsOdd(Zeros(n))
  {
    if n > 0 {
      assert Zeros(n)[1..] == Zeros(n - 1);
      ZerosAreEven(n - 1);
    }
  }

  lemma SingleBit(b: bool)
    ensures IsOdd([b]) == b
  {}

  lemma FourBits(a: bool, b: bool, c: bool, d: bool)
    ensures IsOdd([a, b, c, d]) <==> (a != b) != (c != d)
  {
    hide IsOdd;
    OddAppend([a], [b]);
    OddAppend([c], [d]);
    OddAppend([a] + [b], [c] + [d]);
    SingleBit(a);
    SingleBit(b);
    SingleBit(c);
    SingleBit(d);
    assert [a, b, c, d] == ([a] + [b]) + ([c] + [d]);
  }

  lemma EightBits(a: bool, b: bool, c: bool, d: bool, e: bool, f: bool, g: bool, h: bool)
    ensures IsOdd([a, b, c, d, e, f, g, h]) <==> ((a != b) != (c != d)) != ((e != f) != (g != h))
  {
    FourBits(a, b, c, d);
    FourBits(e, f, g, h);
    hide IsOdd;
    OddAppend([a, b, c, d], [e, f, g, h]);
    assert [a, b, c, d, e, f, g, h] == [a, b, c, d] + [e, f, g, h];
  }

  /** Without its leading term the generator has seventeen terms. */
  lemma GeneratorIsOdd()
    ensures IsOdd(GENERATOR)
  {
    var a := [false, false, false, true, true, true, true, false];
    var b := [true, true, false, true, true, true, false, false];
    var c := [false, true, true, false, true, true, true, true];
    var d := [false, true, false, false, false, false, false, true];
    assert GENERATOR == a + b + c + d;
    hide IsOdd;
    EightBits(false, false, false, true, true, true, true, false);
    EightBits(true, true, false, true, true, true, false, false);
    EightBits(false, true, true, false, true, true, true, true);
    EightBits(false, true, false, false, false, false, false, true);
    OddAppend(a + b + c, d);
    OddAppend(a + b, c);
    OddAppend(a, b);
  }

  lemma ClockKeepsParity(r: Bits)
    requires |r| == 32
    ensures IsOdd(Clock(r)) == IsOdd(r)
  {
    hide IsOdd;
    GeneratorIsOdd();
    assert r == [r[0]] + r[1..];
    OddAppend([r[0]], r[1..]);
    OddAppend(r[1..], [false]);
    OddXor(r[1..] + [false], GENERATOR);
    SingleBit(r[0]);
    SingleBit(false);
  }

  lemma {:induction false} FeedAddsParity(r: Bits, message: Bits)
    requires |r| == 32
    ensures IsOdd(Feed(r, message)) <==> IsOdd(r) != IsOdd(message)
    decreases |message|
  {
    hide Clock;
    if message != [] {
      var offset := r[0 := r[0] != message[0]];
      assert offset[1..] == r[1..];
      ClockKeepsParity(offset);
      FeedAddsParity(Clock(offset), message[1..]);
    }
  }

  lemma {:induction false} ClocksKeepParity(r: Bits, n: nat)
    requires |r| == 32
    ensures IsOdd(Clocks(r, n)) == IsOdd(r)
    decreases n
  {
    if n > 0 {
      ClockKeepsParity(r);
      ClocksKeepParity(Clock(r), n - 1);
    }
  }

  /** Every codeword has an even number of ones. */
  lemma CodewordsAreEven(message: Bits, trailer: Bits)
    requires |trailer| == 32 && IsCodeword(message, trailer)
    ensures !IsOdd(message + trailer)
  {
    hide Feed, IsOdd, Clocks, IsCodeword;
    CodewordsHaveOneResidue(message, trailer);
    FeedAddsParity(Ones(32), message + trailer);
    ClocksKeepParity(Ones(32), 32);
  }

  /** The positions at which two strings differ. */
  function Flipped(u: Bits, v: Bits): set<nat>
    requires |u| == |v|
  {
    set i | 0 <= i < |u| && u[i] != v[i]
  }

  lemma FlippedAtEnd(u: Bits, v: Bits)
    requires |u| == |v| > 0
    ensures var n := |u| - 1;
      |Flipped(u, v)| == |Flipped(u[..n], v[..n])| + if u[n] != v[n] then 1 else 0
  {
    var n := |u| - 1;
    assert Flipped(u, v) == Flipped(u[..n], v[..n]) + if u[n] != v[n] then {n} else {};
  }

  lemma {:induction false} FlippedParity(u: Bits, v: Bits)
    requires |u| == |v|
    ensures |Flipped(u, v)| % 2 == 1 <==> IsOdd(u) != IsOdd(v)
  {
    if u != [] {
      hide IsOdd, Flipped;
      var n := |u| - 1;
      FlippedParity(u[..n], v[..n]);
      assert u == u[..n] + [u[n]] && v == v[..n] + [v[n]];
      OddAppend(u[..n], [u[n]]);
      OddAppend(v[..n], [v[n]]);
      SingleBit(u[n]);
      SingleBit(v[n]);
      FlippedAtEnd(u, v);
    }
  }

  /** No odd number of flipped bits, however far apart, turns a codeword into another codeword. */
  lemma OddFlipsAreDetected(message: Bits, trailer: Bits, message': Bits, trailer': Bits)
    requires |trailer| == |trailer'| == 32 && |message| == |message'|
    requires IsCodeword(message, trailer)
    requires |Flipped(message + trailer, message' + trailer')| % 2 == 1
    ensures !IsCodeword(message', trailer')
  {
    hide IsOdd, IsCodeword, Flipped;
    CodewordsAreEven(message, trailer);
    FlippedParity(message + trailer, message' + trailer');
    if IsCodeword(message', trailer') {
      CodewordsAreEven(message', trailer');
      assert false;
    }
  }
}
