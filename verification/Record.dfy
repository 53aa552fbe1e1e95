/** Stored records, after memory.rs: the table-driven CRC-32C over machine words and the framing
    that `to_bytes_checksummed` and `from_bytes` put around a bitcode payload. */
module Record {
  import opened Results
  import opened MachineTypes
  import opened CyclicCode
  import opened WordBits

  /** The generator reflected, lowest bit for the highest coefficient. */
  const POLYNOMIAL: bv32 := 0x82F6_3B78
  const ALL_ONES: bv32 := 0xFFFF_FFFF

  const FORMAT_PLAIN: Octet := 0x00
  const FORMAT_CHECKSUMMED: Octet := 0x01

  // ---------------------------------------------------------------------------------------
  //  The table
  // ---------------------------------------------------------------------------------------

  function TableClock(crc: bv32): bv32 {
    if crc & 1 != 0 then (crc >> 1) ^ POLYNOMIAL else crc >> 1
  }

  function TableClocks(crc: bv32, n: nat): bv32 {
    if n == 0 then crc else TableClock(TableClocks(crc, n - 1))
  }

  /** What entry i of the table holds. */
  function Entry(i: int): bv32
    requires 0 <= i < 256
  {
    TableClocks(i as bv32, 8)
  }

  method BuildEntry(i: int) returns (crc: bv32)
    requires 0 <= i < 256
    ensures crc == Entry(i)
  {
    crc := i as bv32;
    ghost var start := crc;
    var j := 0;
    while j < 8
      invariant 0 <= j <= 8
      invariant crc == TableClocks(start, j)
    {
      crc := TableClock(crc);
      j := j + 1;
    }
  }

  /** CRC32C_TABLE. */
  method BuildTable() returns (table: array<bv32>)
    ensures fresh(table) && table.Length == 256
    ensures forall i :: 0 <= i < 256 ==> table[i] == Entry(i)
  {
    table := new bv32[256];
    var i := 0;
    while i < 256
      invariant 0 <= i <= 256
      invariant forall k :: 0 <= k < i ==> table[k] == Entry(k)
    {
      var crc := BuildEntry(i);
      table[i] := crc;
      i := i + 1;
    }
  }

  // ---------------------------------------------------------------------------------------
  //  The checksum
  // ---------------------------------------------------------------------------------------

  function Index(crc: bv32, byte: Octet): bv32 {
    And(crc ^ (byte as bv32), 0xFF)
  }

  function TableStep(crc: bv32, byte: Octet): bv32 {
    TableClocks(Index(crc, byte), 8) ^ (crc >> 8)
  }

  function TableRun(data: seq<Octet>): bv32 {
    if data == [] then ALL_ONES else TableStep(TableRun(data[..|data| - 1]), data[|data| - 1])
  }

  function Crc32c(data: seq<Octet>): bv32 {
    TableRun(data) ^ ALL_ONES
  }

  lemma IndexInTable(crc: bv32, byte: Octet)
    ensures (Index(crc, byte) as int) < 256
    ensures (Index(crc, byte) as int) as bv32 == Index(crc, byte)
  {}

  method LookUp(table: array<bv32>, crc: bv32, byte: Octet) returns (next: bv32)
    requires table.Length == 256
    requires forall i :: 0 <= i < 256 ==> table[i] == Entry(i)
    ensures next == TableStep(crc, byte)
  {
    IndexInTable(crc, byte);
    var index := Index(crc, byte) as int;
    next := table[index] ^ (crc >> 8);
  }

  /** crc32c */
  method ComputeCrc32c(table: array<bv32>, data: seq<Octet>) returns (crc: bv32)
    requires table.Length == 256
    requires forall i :: 0 <= i < 256 ==> table[i] == Entry(i)
    ensures crc == Crc32c(data)
  {
    crc := ALL_ONES;
    for i := 0 to |data|
      invariant crc == TableRun(data[..i])
    {
      assert data[..i + 1][..i] == data[..i];
      crc := LookUp(table, crc, data[i]);
    }
    assert data[..|data|] == data;
    crc := crc ^ ALL_ONES;
  }

  // ---------------------------------------------------------------------------------------
  //  The table computes the remainder
  // ---------------------------------------------------------------------------------------

  /** The bits of a byte string in transmission order, lowest bit of each byte first. */
  function MessageBits(data: seq<Octet>): (bits: Bits)
    ensures |bits| == 8 * |data|
  {
    if data == [] then [] else MessageBits(data[..|data| - 1]) + ByteBits(data[|data| - 1])
  }

  function ByteBits(byte: Octet): (bits: Bits)
    ensures |bits| == 8
  {
    Listing(Low, Half, byte as bv32, 8)
  }

  lemma LowBytesOfPolynomial()
    ensures Listing(Low, Half, 0x82F6_3B78 as bv32, 8) == [false, false, false, true, true, true, true, false]
    ensures Listing(Low, Half, 0x82_F63B as bv32, 8) == [true, true, false, true, true, true, false, false]
  {}

  lemma HighBytesOfPolynomial()
    ensures Listing(Low, Half, 0x82F6 as bv32, 8) == [false, true, true, false, true, true, true, true]
    ensures Listing(Low, Half, 0x82 as bv32, 8) == [false, true, false, false, false, false, false, true]
  {}

  lemma ShiftedPolynomial()
    ensures POLYNOMIAL >> 8 == 0x82_F63B && POLYNOMIAL >> 16 == 0x82F6 && POLYNOMIAL >> 24 == 0x82
  {}

  lemma WordOfPolynomial()
    ensures Word(POLYNOMIAL) == GENERATOR
  {
    hide Listing;
    WordInBytes(POLYNOMIAL);
    ShiftedPolynomial();
    LowBytesOfPolynomial();
    HighBytesOfPolynomial();
  }

  lemma WordOfAllOnes()
    ensures Word(ALL_ONES) == Ones(32)
  {
    WordInBytes(ALL_ONES);
    assert ALL_ONES >> 8 == 0xFF_FFFF && ALL_ONES >> 16 == 0xFFFF && ALL_ONES >> 24 == 0xFF;
    assert Listing(Low, Half, 0xFFFF_FFFF as bv32, 8) == Ones(8);
    assert Listing(Low, Half, 0xFF_FFFF as bv32, 8) == Ones(8);
    assert Listing(Low, Half, 0xFFFF as bv32, 8) == Ones(8);
    assert Listing(Low, Half, 0xFF as bv32, 8) == Ones(8);
  }

  lemma TableClockIsClock(x: bv32)
    ensures Word(TableClock(x)) == Clock(Word(x))
  {
    WordOfHalf(x);
    WordOfXor(x >> 1, POLYNOMIAL);
    WordOfPolynomial();
    assert Word(x)[0] == Low(x);
  }

  lemma {:induction false} TableClocksAreClocks(x: bv32, n: nat)
    ensures Word(TableClocks(x, n)) == Clocks(Word(x), n)
  {
    hide TableClock, Clock, Word;
    if n > 0 {
      TableClocksAreClocks(x, n - 1);
      TableClockIsClock(TableClocks(x, n - 1));
      ClocksOneMore(Word(x), n - 1);
    }
  }

  lemma ByteWord(byte: Octet)
    ensures (byte as bv32) >> 8 == 0
  {}

  lemma OffsetByteShiftedOut(crc: bv32, byte: Octet)
    ensures (crc ^ (byte as bv32)) >> 8 == crc >> 8
  {}

  /** One table look-up does the work of eight clocks. */
  lemma TableStepFeedsAByte(crc: bv32, byte: Octet)
    ensures Word(TableStep(crc, byte)) == Feed(Word(crc), ByteBits(byte))
  {
    var word := byte as bv32;
    TableStepClocksTheOffset(crc, byte);
    WordOfXor(crc, word);
    ByteWord(byte);
    WordOfByte(word);
    FeedWord(Word(crc), ByteBits(byte));
  }

  lemma TableStepClocksTheOffset(crc: bv32, byte: Octet)
    ensures Word(TableStep(crc, byte)) == Clocks(Word(crc ^ (byte as bv32)), 8)
  {
    hide TableClocks, Clocks, Word;
    var offset := crc ^ (byte as bv32);
    var index := Index(crc, byte);
    TableClocksAreClocks(index, 8);
    WordOfLowestByte(offset);
    ShiftedOffset(crc, byte);
    LookedUpWord(offset, index, TableClocks(index, 8), crc >> 8);
  }

  lemma ShiftedOffset(crc: bv32, byte: Octet)
    ensures Word(crc >> 8) == Word(crc ^ (byte as bv32))[8..] + Zeros(8)
  {
    OffsetByteShiftedOut(crc, byte);
    WordOfShiftedByte(crc ^ (byte as bv32));
  }

  lemma LookedUpWord(offset: bv32, index: bv32, entry: bv32, high: bv32)
    requires Word(index) == Word(offset)[..8] + Zeros(24)
    requires Word(entry) == Clocks(Word(index), 8)
    requires Word(high) == Word(offset)[8..] + Zeros(8)
    ensures Word(entry ^ high) == Clocks(Word(offset), 8)
  {
    WordOfXor(entry, high);
    EightClocks(Word(offset));
  }

  lemma {:induction false} TableRunFeedsTheBytes(data: seq<Octet>)
    ensures Word(TableRun(data)) == Feed(Ones(32), MessageBits(data))
  {
    hide TableStep, ByteBits, Word;
    if data == [] {
      WordOfAllOnes();
    } else {
      var init, last := data[..|data| - 1], data[|data| - 1];
      TableRunFeedsTheBytes(init);
      TableStepFeedsAByte(TableRun(init), last);
      FeedAppend(Ones(32), MessageBits(init), ByteBits(last));
    }
  }

  /** On every byte string the table-driven checksum is the complemented remainder of the
      message polynomial, its first 32 coefficients complemented, on division by the generator. */
  lemma Crc32cIsTheRemainder(data: seq<Octet>)
    ensures Word(Crc32c(data)) == Not(Remainder(Offset(Ones(32), MessageBits(data))))
    ensures Word(Crc32c(data)) == Check(MessageBits(data))
  {
    hide TableRun, Feed, Remainder, Offset, MessageBits, Word;
    TableRunFeedsTheBytes(data);
    WordOfXor(TableRun(data), ALL_ONES);
    WordOfAllOnes();
    FeedIsRemainder(Ones(32), MessageBits(data));
    var r := Feed(Ones(32), MessageBits(data));
    assert Xor(r, Ones(32)) == Not(r);
  }

  // ---------------------------------------------------------------------------------------
  //  Framing
  // ---------------------------------------------------------------------------------------

  function ToLittleEndian(x: bv32): (bytes: seq<Octet>)
    ensures |bytes| == 4
  {
    [(x & 0xFF) as bv8, ((x >> 8) & 0xFF) as bv8, ((x >> 16) & 0xFF) as bv8, ((x >> 24) & 0xFF) as bv8]
  }

  function FromLittleEndian(bytes: seq<Octet>): bv32
    requires |bytes| == 4
  {
    (bytes[0] as bv32) | ((bytes[1] as bv32) << 8) | ((bytes[2] as bv32) << 16) | ((bytes[3] as bv32) << 24)
  }

  datatype DecodeError = EmptyInput | TooShort | ChecksumMismatch | BadPayload

  /** to_bytes: the encoder alone, no marker. */
  function ToBytes<M>(encode: M -> seq<Octet>, memory: M): seq<Octet> {
    encode(memory)
  }

  /** to_bytes_checksummed */
  function ToBytesChecksummed<M>(encode: M -> seq<Octet>, memory: M): seq<Octet> {
    var payload := encode(memory);
    [FORMAT_CHECKSUMMED] + payload + ToLittleEndian(Crc32c(payload))
  }

  function Decoded<M>(decode: seq<Octet> -> Option<M>, bytes: seq<Octet>): Result<M, DecodeError> {
    match decode(bytes)
    case Some(memory) => Ok(memory)
    case None => Err(BadPayload)
  }

  /** from_bytes */
  function FromBytes<M>(decode: seq<Octet> -> Option<M>, bytes: seq<Octet>): Result<M, DecodeError> {
    if bytes == [] then Err(EmptyInput)
    else if bytes[0] == FORMAT_CHECKSUMMED then
      if |bytes| < 6 then Err(TooShort)
      else
        var payload := bytes[1..|bytes| - 4];
        var stored := FromLittleEndian(bytes[|bytes| - 4..]);
        if stored != Crc32c(payload) then Err(ChecksumMismatch) else Decoded(decode, payload)
    else if bytes[0] == FORMAT_PLAIN then Decoded(decode, bytes[1..])
    else Decoded(decode, bytes)
  }

  // ---------------------------------------------------------------------------------------
  //  Frames as codewords
  // ---------------------------------------------------------------------------------------

  lemma ByteOfWord(x: bv32, byte: Octet)
    requires byte == (x & 0xFF) as bv8
    ensures byte as bv32 == And(x, 0xFF)
  {}

  lemma ByteBitsOfWord(x: bv32, byte: Octet)
    requires byte == (x & 0xFF) as bv8
    ensures ByteBits(byte) == Listing(Low, Half, x, 8)
  {
    ByteOfWord(x, byte);
    BitsOfMaskedByte(x);
  }

  lemma FourBytes(a: Octet, b: Octet, c: Octet, d: Octet)
    ensures MessageBits([a, b, c, d]) == ByteBits(a) + ByteBits(b) + ByteBits(c) + ByteBits(d)
  {
    assert [a, b, c, d][..3] == [a, b, c] && [a, b, c][..2] == [a, b] && [a, b][..1] == [a] && [a][..0] == [];
    assert MessageBits([a]) == ByteBits(a);
    assert MessageBits([a, b]) == ByteBits(a) + ByteBits(b);
    assert MessageBits([a, b, c]) == ByteBits(a) + ByteBits(b) + ByteBits(c);
  }

  lemma LittleEndianBits(x: bv32)
    ensures MessageBits(ToLittleEndian(x)) == Word(x)
  {
    LittleEndianByteBits(x);
    WordInBytes(x);
    var bytes := ToLittleEndian(x);
    assert bytes == [bytes[0], bytes[1], bytes[2], bytes[3]];
    FourBytes(bytes[0], bytes[1], bytes[2], bytes[3]);
  }

  lemma LittleEndianByteBits(x: bv32)
    ensures ByteBits(ToLittleEndian(x)[0]) == Listing(Low, Half, x, 8)
    ensures ByteBits(ToLittleEndian(x)[1]) == Listing(Low, Half, x >> 8, 8)
    ensures ByteBits(ToLittleEndian(x)[2]) == Listing(Low, Half, x >> 16, 8)
    ensures ByteBits(ToLittleEndian(x)[3]) == Listing(Low, Half, x >> 24, 8)
  {
    hide ByteBits, Listing;
    ByteBitsOfWord(x, (x & 0xFF) as bv8);
    ByteBitsOfWord(x >> 8, ((x >> 8) & 0xFF) as bv8);
    ByteBitsOfWord(x >> 16, ((x >> 16) & 0xFF) as bv8);
    ByteBitsOfWord(x >> 24, ((x >> 24) & 0xFF) as bv8);
  }

  lemma LittleEndianRoundTrip(bytes: seq<Octet>)
    requires |bytes| == 4
    ensures ToLittleEndian(FromLittleEndian(bytes)) == bytes
  {
    assert bytes == [bytes[0], bytes[1], bytes[2], bytes[3]];
    FourBytesRoundTrip(bytes[0], bytes[1], bytes[2], bytes[3]);
  }

  lemma FourBytesRoundTrip(a: Octet, b: Octet, c: Octet, d: Octet)
    ensures ToLittleEndian(FromLittleEndian([a, b, c, d])) == [a, b, c, d]
  {}

  lemma {:induction false} MessageBitsAppend(a: seq<Octet>, b: seq<Octet>)
    ensures MessageBits(a + b) == MessageBits(a) + MessageBits(b)
    decreases |b|
  {
    hide ByteBits;
    if b == [] {
      assert a + b == a;
    } else {
      assert (a + b)[..|a + b| - 1] == a + b[..|b| - 1];
      MessageBitsAppend(a, b[..|b| - 1]);
    }
  }

  lemma ByteBitsDetermine(a: Octet, b: Octet)
    requires ByteBits(a) == ByteBits(b)
    ensures a == b
  {
    ByteWord(a);
    ByteWord(b);
    WordOfByte(a as bv32);
    WordOfByte(b as bv32);
    WordDetermines(a as bv32, b as bv32);
    WideningIsInjective(a, b);
  }

  lemma WideningIsInjective(a: Octet, b: Octet)
    requires a as bv32 == b as bv32
    ensures a == b
  {}

  /** The last byte and the bytes before it, read off the bits. */
  lemma LastByteOfBits(a: seq<Octet>, b: seq<Octet>)
    requires |a| == |b| && a != [] && MessageBits(a) == MessageBits(b)
    ensures MessageBits(a[..|a| - 1]) == MessageBits(b[..|b| - 1])
    ensures ByteBits(a[|a| - 1]) == ByteBits(b[|b| - 1])
  {
    hide ByteBits;
    var n := 8 * (|a| - 1);
    assert MessageBits(a)[..n] == MessageBits(a[..|a| - 1]) && MessageBits(b)[..n] == MessageBits(b[..|b| - 1]);
    assert MessageBits(a)[n..] == ByteBits(a[|a| - 1]) && MessageBits(b)[n..] == ByteBits(b[|b| - 1]);
  }

  lemma {:induction false} MessageBitsDetermine(a: seq<Octet>, b: seq<Octet>)
    requires MessageBits(a) == MessageBits(b)
    ensures a == b
    decreases |a|
  {
    hide ByteBits;
    if a != [] {
      LastByteOfBits(a, b);
      MessageBitsDetermine(a[..|a| - 1], b[..|b| - 1]);
      ByteBitsDetermine(a[|a| - 1], b[|b| - 1]);
      assert a == a[..|a| - 1] + [a[|a| - 1]] && b == b[..|b| - 1] + [b[|b| - 1]];
    }
  }

  /** `from_bytes` finds a checksum right exactly when payload and trailer form a codeword. */
  lemma ChecksumRightIffCodeword<M>(decode: seq<Octet> -> Option<M>, bytes: seq<Octet>)
    requires |bytes| >= 6 && bytes[0] == FORMAT_CHECKSUMMED
    ensures FromBytes(decode, bytes) == Err(ChecksumMismatch)
       <==> !IsCodeword(MessageBits(bytes[1..|bytes| - 4]), MessageBits(bytes[|bytes| - 4..]))
  {
    hide MessageBits, Crc32c, ToLittleEndian, FromLittleEndian, Word;
    var payload, trailer := bytes[1..|bytes| - 4], bytes[|bytes| - 4..];
    var stored := FromLittleEndian(trailer);
    LittleEndianRoundTrip(trailer);
    LittleEndianBits(stored);
    Crc32cIsTheRemainder(payload);
    if Word(stored) == Word(Crc32c(payload)) {
      WordDetermines(stored, Crc32c(payload));
    }
  }

  /** An untouched checksummed record decodes to the memory it was made from, unless its
      encoding is empty: the shortest record accepted carries one payload byte. */
  lemma ChecksummedRoundTrip<M>(encode: M -> seq<Octet>, decode: seq<Octet> -> Option<M>, memory: M)
    requires decode(encode(memory)) == Some(memory)
    ensures FromBytes(decode, ToBytesChecksummed(encode, memory))
         == if encode(memory) == [] then Err(TooShort) else Ok(memory)
  {
    var payload := encode(memory);
    var bytes := ToBytesChecksummed(encode, memory);
    assert bytes[|bytes| - 4..] == ToLittleEndian(Crc32c(payload));
    assert bytes[1..|bytes| - 4] == payload;
    FromLittleEndianRoundTrip(Crc32c(payload));
  }

  lemma FromLittleEndianRoundTrip(x: bv32)
    ensures FromLittleEndian(ToLittleEndian(x)) == x
  {}

  /** The bits after the marker of a checksummed record and of what is received in its place: the
      first are a codeword, and the second are one exactly if `from_bytes` does not report the
      checksum. */
  lemma FrameIsCodeword<M>(
      encode: M -> seq<Octet>, decode: seq<Octet> -> Option<M>, memory: M, received: seq<Octet>)
      returns (payload: seq<Octet>, trailer: seq<Octet>, payload': seq<Octet>, trailer': seq<Octet>)
    requires encode(memory) != []
    requires |received| == |ToBytesChecksummed(encode, memory)| && received[0] == FORMAT_CHECKSUMMED
    ensures |payload| == |payload'| && |MessageBits(trailer)| == |MessageBits(trailer')| == 32
    ensures MessageBits(ToBytesChecksummed(encode, memory)[1..]) == MessageBits(payload) + MessageBits(trailer)
    ensures MessageBits(received[1..]) == MessageBits(payload') + MessageBits(trailer')
    ensures IsCodeword(MessageBits(payload), MessageBits(trailer))
    ensures FromBytes(decode, received) == Err(ChecksumMismatch)
       <==> !IsCodeword(MessageBits(payload'), MessageBits(trailer'))
  {
    hide ByteBits, MessageBits, Crc32c, ToLittleEndian, FromBytes, Check;
    var sent := ToBytesChecksummed(encode, memory);
    payload, trailer := encode(memory), ToLittleEndian(Crc32c(encode(memory)));
    payload', trailer' := received[1..|received| - 4], received[|received| - 4..];
    assert sent[1..] == payload + trailer;
    assert received[1..] == payload' + trailer';
    MessageBitsAppend(payload, trailer);
    MessageBitsAppend(payload', trailer');
    Crc32cIsTheRemainder(payload);
    LittleEndianBits(Crc32c(payload));
    ChecksumRightIffCodeword(decode, received);
  }

  /** Any burst of up to 32 flipped bits after the marker, in the payload, in the trailer or
      across both, makes `from_bytes` report the checksum. */
  lemma BurstIsReported<M>(
      encode: M -> seq<Octet>, decode: seq<Octet> -> Option<M>, memory: M, received: seq<Octet>, from: nat)
    requires encode(memory) != []
    requires |received| == |ToBytesChecksummed(encode, memory)|
    requires received[0] == FORMAT_CHECKSUMMED
    requires received != ToBytesChecksummed(encode, memory)
    requires AgreeOutsideBurst(MessageBits(ToBytesChecksummed(encode, memory)[1..]), MessageBits(received[1..]), from)
    ensures FromBytes(decode, received) == Err(ChecksumMismatch)
  {
    hide ByteBits, MessageBits, Crc32c, ToLittleEndian, FromBytes, AgreeOutsideBurst, IsCodeword;
    var sent := ToBytesChecksummed(encode, memory);
    var payload, trailer, payload', trailer' := FrameIsCodeword(encode, decode, memory, received);
    assert received == [received[0]] + received[1..] && sent == [sent[0]] + sent[1..];
    if MessageBits(sent[1..]) == MessageBits(received[1..]) {
      MessageBitsDetermine(sent[1..], received[1..]);
    }
    BurstsAreDetected(MessageBits(payload), MessageBits(trailer), MessageBits(payload'), MessageBits(trailer'), from);
  }

  /** So does any odd number of flipped bits, wherever they are. */
  lemma OddFlipsAreReported<M>(
      encode: M -> seq<Octet>, decode: seq<Octet> -> Option<M>, memory: M, received: seq<Octet>)
    requires encode(memory) != []
    requires |received| == |ToBytesChecksummed(encode, memory)| && received[0] == FORMAT_CHECKSUMMED
    requires |Flipped(MessageBits(ToBytesChecksummed(encode, memory)[1..]), MessageBits(received[1..]))| % 2 == 1
    ensures FromBytes(decode, received) == Err(ChecksumMismatch)
  {
    hide ByteBits, MessageBits, FromBytes, Flipped, IsCodeword;
    var payload, trailer, payload', trailer' := FrameIsCodeword(encode, decode, memory, received);
    OddFlipsAreDetected(MessageBits(payload), MessageBits(trailer), MessageBits(payload'), MessageBits(trailer'));
  }

  /** And exactly those changes go unreported whose flipped bits form a multiple of the generator. */
  lemma UnreportedIffDivides<M>(
      encode: M -> seq<Octet>, decode: seq<Octet> -> Option<M>, memory: M, received: seq<Octet>)
    requires encode(memory) != []
    requires |received| == |ToBytesChecksummed(encode, memory)| && received[0] == FORMAT_CHECKSUMMED
    ensures FromBytes(decode, received) == Err(ChecksumMismatch)
       <==> Remainder(Xor(MessageBits(ToBytesChecksummed(encode, memory)[1..]), MessageBits(received[1..])))
            != Zeros(32)
  {
    hide ByteBits, MessageBits, FromBytes, IsCodeword, Remainder, Xor;
    var payload, trailer, payload', trailer' := FrameIsCodeword(encode, decode, memory, received);
    UndetectedIffDivides(MessageBits(payload), MessageBits(trailer), MessageBits(payload'), MessageBits(trailer'));
  }

  /** The bits of a byte string byte by byte. */
  lemma {:induction false} MessageBitsAt(data: seq<Octet>, i: nat)
    requires i < 8 * |data|
    ensures MessageBits(data)[i] == ByteBits(data[i / 8])[i % 8]
    decreases |data|
  {
    hide ByteBits;
    var init := data[..|data| - 1];
    if i < 8 * |init| {
      MessageBitsAt(init, i);
    }
  }

  /** Changing any bytes within four consecutive positions after the marker is reported. */
  lemma FourChangedBytesAreReported<M>(
      encode: M -> seq<Octet>, decode: seq<Octet> -> Option<M>, memory: M, received: seq<Octet>, at: nat)
    requires encode(memory) != []
    requires |received| == |ToBytesChecksummed(encode, memory)|
    requires received != ToBytesChecksummed(encode, memory)
    requires at >= 1
    requires forall i :: 0 <= i < |received| && !(at <= i < at + 4) ==>
        received[i] == ToBytesChecksummed(encode, memory)[i]
    ensures FromBytes(decode, received) == Err(ChecksumMismatch)
  {
    hide ByteBits, MessageBits, Crc32c, ToLittleEndian, FromBytes;
    var sent := ToBytesChecksummed(encode, memory);
    var u, v := sent[1..], received[1..];
    forall i | 0 <= i < 8 * |u| && !(8 * (at - 1) <= i < 8 * (at - 1) + 32)
      ensures MessageBits(u)[i] == MessageBits(v)[i]
    {
      MessageBitsAt(u, i);
      MessageBitsAt(v, i);
      assert u[i / 8] == sent[i / 8 + 1] && v[i / 8] == received[i / 8 + 1];
    }
    assert received[0] == sent[0];
    BurstIsReported(encode, decode, memory, received, 8 * (at - 1));
  }

  /** Plain encodings carry no marker of their own: one that begins with neither marker reads back. */
  lemma PlainRoundTrip<M>(encode: M -> seq<Octet>, decode: seq<Octet> -> Option<M>, memory: M)
    requires decode(encode(memory)) == Some(memory)
    requires encode(memory) != [] && encode(memory)[0] !in {FORMAT_PLAIN, FORMAT_CHECKSUMMED}
    ensures FromBytes(decode, ToBytes(encode, memory)) == Ok(memory)
  {}

  /** With a decoder that accepts nothing else for this memory, no other plain encoding does. */
  lemma PlainRoundTripIff<M(!new)>(encode: M -> seq<Octet>, decode: seq<Octet> -> Option<M>, memory: M)
    requires forall bytes :: decode(bytes) == Some(memory) <==> bytes == encode(memory)
    ensures FromBytes(decode, ToBytes(encode, memory)) == Ok(memory)
       <==> encode(memory) != [] && encode(memory)[0] !in {FORMAT_PLAIN, FORMAT_CHECKSUMMED}
  {
    var bytes := encode(memory);
    if bytes != [] && bytes[0] == FORMAT_PLAIN {
      assert |bytes[1..]| < |bytes|;
    } else if |bytes| >= 6 && bytes[0] == FORMAT_CHECKSUMMED {
      assert |bytes[1..|bytes| - 4]| < |bytes|;
    }
  }
}
