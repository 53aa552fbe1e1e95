/** base64url without padding, after auth.rs: the encoder against the alphabet and the grouping of
    sections 4 and 5 of RFC 4648, and a decoder that inverts it. */
module Base64Url {
  import opened Results
  import opened MachineTypes

  /** A word of six bits. */
  type Six = x: bv32 | x < 64

  const UPPER := "ABCDEFGHIJKLMNOPQRSTUVWXYZ"
  const LOWER := "abcdefghijklmnopqrstuvwxyz"
  const DIGITS := "0123456789"
  const ALPHABET := UPPER + LOWER + DIGITS + "-_"

  function Symbol(value: Six): char {
    Sextets(value);
    ALPHABET[value as int]
  }

  lemma Sextets(value: Six)
    ensures 0 <= value as int < 64
  {}

  lemma Masked(n: bv32)
    ensures n & 0x3F < 64
  {}

  // ---------------------------------------------------------------------------------------
  //  Encoding
  // ---------------------------------------------------------------------------------------

  function Sextet(n: bv32, shift: nat): Six
    requires shift in {0, 6, 12, 18}
  {
    Masked(n >> 18); Masked(n >> 12); Masked(n >> 6); Masked(n);
    if shift == 18 then (n >> 18) & 0x3F
    else if shift == 12 then (n >> 12) & 0x3F
    else if shift == 6 then (n >> 6) & 0x3F
    else n & 0x3F
  }

  function Three(a: Octet, b: Octet, c: Octet): bv32 {
    ((a as bv32) << 16) | ((b as bv32) << 8) | (c as bv32)
  }

  function Group(n: bv32, symbols: nat): (text: string)
    requires 2 <= symbols <= 4
    ensures |text| == symbols
  {
    var two := [Symbol(Sextet(n, 18)), Symbol(Sextet(n, 12))];
    if symbols == 2 then two
    else if symbols == 3 then two + [Symbol(Sextet(n, 6))]
    else two + [Symbol(Sextet(n, 6)), Symbol(Sextet(n, 0))]
  }

  /** What is left to encode, three bytes at a time. */
  function Encoded(data: seq<Octet>): (text: string)
    ensures |text| == (4 * |data| + 2) / 3
  {
    if data == [] then ""
    else if |data| == 1 then Group((data[0] as bv32) << 16, 2)
    else if |data| == 2 then Group(((data[0] as bv32) << 16) | ((data[1] as bv32) << 8), 3)
    else Group(Three(data[0], data[1], data[2]), 4) + Encoded(data[3..])
  }

  /** base64url_encode */
  method Encode(data: seq<Octet>) returns (result: string)
    ensures result == Encoded(data)
  {
    hide Group, Three;
    result := "";
    var i := 0;
    while i + 2 < |data|
      invariant 0 <= i <= |data|
      invariant Encoded(data) == result + Encoded(data[i..])
    {
      var n := Three(data[i], data[i + 1], data[i + 2]);
      assert data[i..][3..] == data[i + 3..];
      result := result + Group(n, 4);
      i := i + 3;
    }
    var remaining := |data| - i;
    if remaining == 2 {
      var n := ((data[i] as bv32) << 16) | ((data[i + 1] as bv32) << 8);
      result := result + Group(n, 3);
    } else if remaining == 1 {
      var n := (data[i] as bv32) << 16;
      result := result + Group(n, 2);
    }
  }

  // ---------------------------------------------------------------------------------------
  //  Decoding
  // ---------------------------------------------------------------------------------------

  /** The value of a symbol by table 2 of RFC 4648. */
  function ValueOf(symbol: char): (value: Option<int>)
    ensures value.Some? ==> 0 <= value.value < 64
  {
    if 'A' <= symbol <= 'Z' then Some(symbol as int - 'A' as int)
    else if 'a' <= symbol <= 'z' then Some(symbol as int - 'a' as int + 26)
    else if '0' <= symbol <= '9' then Some(symbol as int - '0' as int + 52)
    else if symbol == '-' then Some(62)
    else if symbol == '_' then Some(63)
    else None
  }

  lemma UpperInOrder(i: nat)
    requires i < 26
    ensures UPPER[i] as int == 'A' as int + i && LOWER[i] as int == 'a' as int + i
  {}

  lemma DigitsInOrder(i: nat)
    requires i < 10
    ensures DIGITS[i] as int == '0' as int + i
  {}

  lemma UpperIsTable(i: nat)
    requires i < 26
    ensures ALPHABET[i] == UPPER[i] && ValueOf(UPPER[i]) == Some(i)
    ensures ALPHABET[i + 26] == LOWER[i] && ValueOf(LOWER[i]) == Some(i + 26)
  {
    UpperInOrder(i);
  }

  lemma DigitIsTable(i: nat)
    requires i < 10
    ensures ALPHABET[i + 52] == DIGITS[i] && ValueOf(DIGITS[i]) == Some(i + 52)
  {
    DigitsInOrder(i);
  }

  /** The alphabet lists the symbols in the order of their values. */
  lemma AlphabetIsTable(i: nat)
    requires i < 64
    ensures ValueOf(ALPHABET[i]) == Some(i)
  {
    if i < 26 {
      UpperIsTable(i);
    } else if i < 52 {
      UpperIsTable(i - 26);
    } else if i < 62 {
      DigitIsTable(i - 52);
    }
  }

  lemma ValueOfSymbol(value: Six)
    ensures ValueOf(Symbol(value)) == Some(value as int)
  {
    Sextets(value);
    AlphabetIsTable(value as int);
  }

  function ByteAt(n: bv32, shift: nat): Octet
    requires shift in {0, 8, 16}
  {
    if shift == 16 then ((n >> 16) & 0xFF) as bv8
    else if shift == 8 then ((n >> 8) & 0xFF) as bv8
    else (n & 0xFF) as bv8
  }

  function Joined(a: bv32, b: bv32, c: bv32, d: bv32): bv32 {
    (a << 18) | (b << 12) | (c << 6) | d
  }

  /** The sextets of a text; None if a symbol is not in the alphabet. */
  function Sextets64(text: string): Option<seq<Six>> {
    if text == "" then Some([])
    else
      match (ValueOf(text[0]), Sextets64(text[1..]))
      case (Some(value), Some(rest)) => InSixBits(value); Some([value as bv32 as Six] + rest)
      case _ => None
  }

  lemma InSixBits(value: int)
    requires 0 <= value < 64
    ensures value as bv32 < 64
  {}

  /** Four sextets make three bytes; two or three at the end make one or two. */
  function BytesOf(values: seq<Six>): Option<seq<Octet>> {
    if values == [] then Some([])
    else if |values| == 1 then None
    else if |values| == 2 then Some([ByteAt(Joined(values[0], values[1], 0, 0), 16)])
    else if |values| == 3 then
      var n := Joined(values[0], values[1], values[2], 0);
      Some([ByteAt(n, 16), ByteAt(n, 8)])
    else
      var n := Joined(values[0], values[1], values[2], values[3]);
      match BytesOf(values[4..])
      case Some(rest) => Some([ByteAt(n, 16), ByteAt(n, 8), ByteAt(n, 0)] + rest)
      case None => None
  }

  function Decoded(text: string): Option<seq<Octet>> {
    match Sextets64(text)
    case Some(values) => BytesOf(values)
    case None => None
  }

  // ---------------------------------------------------------------------------------------
  //  Round trip
  // ---------------------------------------------------------------------------------------

  /** The sextets that the encoder turns into symbols. */
  function SextetsOf(data: seq<Octet>): seq<Six> {
    if data == [] then []
    else if |data| == 1 then
      var n := (data[0] as bv32) << 16;
      [Sextet(n, 18), Sextet(n, 12)]
    else if |data| == 2 then
      var n := ((data[0] as bv32) << 16) | ((data[1] as bv32) << 8);
      [Sextet(n, 18), Sextet(n, 12), Sextet(n, 6)]
    else
      var n := Three(data[0], data[1], data[2]);
      [Sextet(n, 18), Sextet(n, 12), Sextet(n, 6), Sextet(n, 0)] + SextetsOf(data[3..])
  }

  function Symbols(values: seq<Six>): (text: string)
    ensures |text| == |values|
  {
    if values == [] then "" else [Symbol(values[0])] + Symbols(values[1..])
  }

  lemma {:induction false} SymbolsReadBack(values: seq<Six>)
    ensures Sextets64(Symbols(values)) == Some(values)
  {
    hide Symbol, ValueOf;
    if values != [] {
      ValueOfSymbol(values[0]);
      SymbolsReadBack(values[1..]);
      BackAndForth(values[0]);
      assert values == [values[0]] + values[1..];
    }
  }

  lemma BackAndForth(value: bv32)
    ensures (value as int) as bv32 == value
  {}

  lemma SymbolsAppend(a: seq<Six>, b: seq<Six>)
    ensures Symbols(a + b) == Symbols(a) + Symbols(b)
  {
    hide Symbol;
    if a == [] {
      assert a + b == b;
    } else {
      assert (a + b)[1..] == a[1..] + b;
      SymbolsAppend(a[1..], b);
    }
  }

  lemma GroupIsSymbols(n: bv32)
    ensures Group(n, 2) == Symbols([Sextet(n, 18), Sextet(n, 12)])
    ensures Group(n, 3) == Symbols([Sextet(n, 18), Sextet(n, 12), Sextet(n, 6)])
    ensures Group(n, 4) == Symbols([Sextet(n, 18), Sextet(n, 12), Sextet(n, 6), Sextet(n, 0)])
  {
    hide Symbol, Sextet;
    SymbolsOfFour(Sextet(n, 18), Sextet(n, 12), Sextet(n, 6), Sextet(n, 0));
  }

  lemma SymbolsOfFour(a: Six, b: Six, c: Six, d: Six)
    ensures Symbols([a, b]) == [Symbol(a), Symbol(b)]
    ensures Symbols([a, b, c]) == [Symbol(a), Symbol(b), Symbol(c)]
    ensures Symbols([a, b, c, d]) == [Symbol(a), Symbol(b), Symbol(c), Symbol(d)]
  {
    hide Symbol;
    SymbolsOfOne(a);
    SymbolsOfOne(b);
    SymbolsOfOne(c);
    SymbolsOfOne(d);
    SymbolsAppend([a], [b]);
    SymbolsAppend([a, b], [c]);
    SymbolsAppend([a, b, c], [d]);
    assert [a] + [b] == [a, b] && [a, b] + [c] == [a, b, c] && [a, b, c] + [d] == [a, b, c, d];
  }

  lemma SymbolsOfOne(a: Six)
    ensures Symbols([a]) == [Symbol(a)]
  {
    assert [a][1..] == [];
  }

  lemma {:induction false} EncodedIsSymbols(data: seq<Octet>)
    ensures Encoded(data) == Symbols(SextetsOf(data))
    decreases |data|
  {
    hide Symbols, Group, Sextet, Three;
    if data == [] {
      EmptySymbols();
    } else if |data| == 1 {
      GroupIsSymbols((data[0] as bv32) << 16);
    } else if |data| == 2 {
      GroupIsSymbols(((data[0] as bv32) << 16) | ((data[1] as bv32) << 8));
    } else {
      var n := Three(data[0], data[1], data[2]);
      GroupIsSymbols(n);
      EncodedIsSymbols(data[3..]);
      SymbolsAppend([Sextet(n, 18), Sextet(n, 12), Sextet(n, 6), Sextet(n, 0)], SextetsOf(data[3..]));
    }
  }

  lemma EmptySymbols()
    ensures Symbols([]) == ""
  {}

  lemma ThreeBytesSurvive(a: Octet, b: Octet, c: Octet, n: bv32)
    requires n == Three(a, b, c)
    ensures var m := Joined(Sextet(n, 18), Sextet(n, 12), Sextet(n, 6), Sextet(n, 0));
      ByteAt(m, 16) == a && ByteAt(m, 8) == b && ByteAt(m, 0) == c
  {}

  lemma TwoBytesSurvive(a: Octet, b: Octet, n: bv32)
    requires n == ((a as bv32) << 16) | ((b as bv32) << 8)
    ensures var m := Joined(Sextet(n, 18), Sextet(n, 12), Sextet(n, 6), 0);
      ByteAt(m, 16) == a && ByteAt(m, 8) == b
  {}

  lemma OneByteSurvives(a: Octet, n: bv32)
    requires n == (a as bv32) << 16
    ensures ByteAt(Joined(Sextet(n, 18), Sextet(n, 12), 0, 0), 16) == a
  {}

  lemma {:induction false} SextetsJoinBack(data: seq<Octet>)
    ensures BytesOf(SextetsOf(data)) == Some(data)
    decreases |data|
  {
    hide Sextet, Three, Joined, ByteAt;
    if data == [] {
    } else if |data| == 1 {
      OneByteSurvives(data[0], (data[0] as bv32) << 16);
      assert data == [data[0]];
    } else if |data| == 2 {
      TwoBytesSurvive(data[0], data[1], ((data[0] as bv32) << 16) | ((data[1] as bv32) << 8));
      assert data == [data[0], data[1]];
    } else {
      ThreeBytesSurvive(data[0], data[1], data[2], Three(data[0], data[1], data[2]));
      SextetsJoinBack(data[3..]);
      assert SextetsOf(data)[4..] == SextetsOf(data[3..]);
      assert data == [data[0], data[1], data[2]] + data[3..];
    }
  }

  /** Decoding what was encoded gives the bytes back, whatever their number. */
  lemma EncodeRoundTrip(data: seq<Octet>)
    ensures Decoded(Encoded(data)) == Some(data)
  {
    EncodedIsSymbols(data);
    SymbolsReadBack(SextetsOf(data));
    SextetsJoinBack(data);
  }

  lemma EncodeIsInjective(a: seq<Octet>, b: seq<Octet>)
    requires Encoded(a) == Encoded(b)
    ensures a == b
  {
    EncodeRoundTrip(a);
    EncodeRoundTrip(b);
  }

  /** Listed in the alphabet, which has no padding character, and known to the decoder. */
  predicate IsSymbol(symbol: char) {
    symbol in ALPHABET && symbol != '=' && ValueOf(symbol).Some?
  }

  lemma {:induction false} SymbolsAreSymbols(values: seq<Six>, i: nat)
    requires i < |values|
    ensures IsSymbol(Symbols(values)[i])
  {
    hide Symbol, IsSymbol;
    if i == 0 {
      SymbolIsSymbol(values[0]);
    } else {
      SymbolsAreSymbols(values[1..], i - 1);
    }
  }

  lemma SymbolIsSymbol(value: Six)
    ensures IsSymbol(Symbol(value))
  {
    Sextets(value);
    ValueOfSymbol(value);
  }

  /** Only symbols of the alphabet come out. */
  lemma EncodedInAlphabet(data: seq<Octet>, i: nat)
    requires i < |Encoded(data)|
    ensures IsSymbol(Encoded(data)[i])
  {
    EncodedIsSymbols(data);
    SymbolsAreSymbols(SextetsOf(data), i);
  }
}
