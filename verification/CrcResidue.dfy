/** What the two complements of CRC-32 are for, and the constant by which a receiver knows a message
    with its checksum behind it (section 8 of RFC 1952). */
module CrcResidue {
  import opened Bytes
  import opened ShiftAlgebra
  import opened Crc32Table
  import opened Crc32

  /** The loop body on known values. */
  lemma FeedKnown(reg: word, b: byte, x: word, entry: word, next: word)
    requires x == Xor(reg, b as word) && x & 0xff < 256 && entry == BitSum(x & 0xff) && next == Xor(entry, x >> 8)
    ensures FeedByte(reg, b) == next
  {
    StepsByByte(x);
    BitSumIsSteps(x & 0xff);
  }

  // ---------- Zero bytes in front of a message ----------

  /** A zero byte takes the register where the table entry of its low byte and a move take it. */
  lemma FeedZero(reg: word, entry: word, next: word)
    requires reg & 0xff < 256 && entry == BitSum(reg & 0xff) && next == Xor(entry, reg >> 8)
    ensures FeedByte(reg, 0) == next
  {
    XorZero(reg);
    FeedKnown(reg, 0, reg, entry, next);
  }

  /** A zero byte changes the checksum of nothing. */
  lemma ZeroByteSum()
    ensures Crc(0, [0]) == 0xd202ef8d
  {
    FeedZero(0xffff_ffff, 0x2d02ef8d, 0x2dfd1072);
    ByteSerial(0, [0]);
    FoldOne(Xor(0, ONES), 0);
    assert Xor(0, ONES) == 0xffff_ffff && Xor(0x2dfd1072, ONES) == 0xd202ef8d;
  }

  lemma FoldOne(reg: word, b: byte)
    ensures Fold(FeedByte, reg, [b]) == FeedByte(reg, b)
  {
    assert [b][1..] == [];
  }

  /** Another seed is another checksum. */
  lemma SeedMatters(a: word, b: word, x: seq<byte>)
    requires Crc(a, x) == Crc(b, x)
    ensures a == b
  {
    var q, r := Xor(a, ONES), Xor(b, ONES);
    XorCancels(Fold(FeedBit, q, Bits(x)), Fold(FeedBit, r, Bits(x)), ONES);
    FeedBitKeepsApart();
    FoldInjective(FeedBit, q, r, Bits(x));
    XorCancels(a, b, ONES);
  }

  /** A zero byte put before a message, the damage that a register starting at zero would not see,
      changes its checksum. */
  lemma LeadingZeroDetected(x: seq<byte>)
    ensures Crc(0, [0] + x) != Crc(0, x)
  {
    ZeroByteSum();
    Streaming(0, [0], x);
    if Crc(0, [0] + x) == Crc(0, x) {
      SeedMatters(0xd202ef8d, 0, x);
    }
  }

  // ---------- The residue ----------

  /** A word as the file formats store it. */
  function LittleEndian(c: word): seq<byte> {
    [Byte0(c), Byte1(c), Byte2(c), Byte3(c)]
  }

  lemma {:induction false} LowBitsSplit(x: word, m: nat, n: nat)
    ensures LowBits(x, m + n) == LowBits(x, m) + LowBits(ShiftRight(x, m), n)
    decreases m
  {
    if m > 0 {
      LowBitsSplit(x >> 1, m - 1, n);
    }
  }

  /** The lowest byte of a word, and the others. */
  lemma LowestByte(x: word, low: word, n: nat)
    requires low == x & 0xff
    ensures LowBits(x, 8 + n) == LowBits(low, 8) + LowBits(x >> 8, n)
  {
    LowBitsSplit(x, 8, n);
    ShiftedBytes(x);
    assert Ones(0xff, 8) by {
      assert Ones(0xf, 4);
    }
    LowBitsMasked(x, 0xff, 8);
  }

  /** The bytes of a word, lowest first. */
  ghost predicate Stored(x: word, bytes: seq<byte>) {
    bytes != [] ==> bytes[0] as word == x & 0xff && Stored(x >> 8, bytes[1..])
  }

  /** The bits of the bytes are the bits of the word. */
  lemma {:induction false} StoredBits(x: word, bytes: seq<byte>)
    requires Stored(x, bytes)
    ensures Bits(bytes) == LowBits(x, 8 * |bytes|)
    decreases |bytes|
  {
    if bytes != [] {
      StoredBits(x >> 8, bytes[1..]);
      LowestByte(x, bytes[0] as word, 8 * |bytes[1..]|);
    }
  }

  lemma BytesOfWord(c: word)
    ensures Byte0(c) as word == c & 0xff && Byte1(c) as word == (c >> 8) & 0xff
    ensures Byte2(c) as word == (c >> 16) & 0xff && Byte3(c) as word == (c >> 24) & 0xff
  {
  }

  lemma LittleEndianStored(c: word)
    ensures Stored(c, LittleEndian(c))
  {
    BytesOfWord(c);
    FourShifts(c);
    var bytes := LittleEndian(c);
    assert bytes[1..][1..] == bytes[2..] && bytes[2..][1..] == bytes[3..] && bytes[3..][1..] == [];
    assert Stored(c >> 24, bytes[3..]);
    assert Stored(c >> 16, bytes[2..]);
    assert Stored(c >> 8, bytes[1..]);
  }

  /** Feeding a register the word that is its complement leaves what 32 steps make of all ones. */
  lemma FeedComplement(reg: word, c: word, n: nat)
    requires Xor(reg, c) == 0xffff_ffff && n == 32
    ensures Fold(FeedBit, reg, LowBits(c, n)) == 0xdebb20e3
  {
    FeedLowBits(reg, c, n);
    AllShiftedOut(c);
    XorZero(Fold(FeedBit, reg, LowBits(c, n)));
    OnesStepped();
  }

  lemma OnesStepped()
    ensures Steps(0xffff_ffff, 32) == 0xdebb20e3
  {
    FeedZero(0xffff_ffff, 0x2d02ef8d, 0x2dfd1072);
    FeedZero(0x2dfd1072, 0xbe0b1010, 0xbe26ed00);
    FeedZero(0xbe26ed00, 0, 0x00be26ed);
    FeedZero(0x00be26ed, 0xdebb9ec5, 0xdebb20e3);
    EightMore(0xffff_ffff, 24);
    EightMore(0x2dfd1072, 16);
    EightMore(0xbe26ed00, 8);
    EightMore(0x00be26ed, 0);
  }

  lemma EightMore(x: word, n: nat)
    ensures Steps(x, 8 + n) == Steps(FeedByte(x, 0), n)
  {
    ShiftAlgebra.IterateAdd(Shift, x, 8, n);
    XorZero(x);
  }

  /** A message with its checksum behind it, in the byte order of the formats, has one and the same
      checksum, whatever the message and the seed. */
  lemma Residue(seed: word, m: seq<byte>)
    ensures Crc(seed, m + LittleEndian(Crc(seed, m))) == 0x2144df1c
  {
    var c := Crc(seed, m);
    Streaming(seed, m, LittleEndian(c));
    LittleEndianStored(c);
    StoredBits(c, LittleEndian(c));
    Complement(c);
    FeedComplement(Xor(c, ONES), c, 32);
    assert Xor(0xdebb20e3, ONES) == 0x2144df1c;
  }

  lemma Complement(c: word)
    ensures Xor(Xor(c, ONES), c) == 0xffff_ffff
  {
  }

  // ---------- A known checksum ----------

  lemma FoldFirst(reg: word, b: byte, rest: seq<byte>)
    ensures Fold(FeedByte, reg, [b] + rest) == Fold(FeedByte, FeedByte(reg, b), rest)
  {
    assert ([b] + rest)[1..] == rest;
  }

  /** The nine digits "123456789". */
  const DIGITS: seq<byte> := [0x31, 0x32, 0x33, 0x34, 0x35, 0x36, 0x37, 0x38, 0x39]

  /** The usual check value of CRC-32, the checksum of the nine digits. */
  lemma CheckValue()
    ensures Crc(0, DIGITS) == 0xcbf43926
  {
    ByteSerial(0, DIGITS);
    FirstDigits();
    LastDigits();
    FoldAppend(FeedByte, 0xffff_ffff, DIGITS[..5], DIGITS[5..]);
    assert DIGITS == DIGITS[..5] + DIGITS[5..];
    assert Xor(0, ONES) == 0xffff_ffff && Xor(0x340bc6d9, ONES) == 0xcbf43926;
  }

  lemma FirstDigits()
    ensures Fold(FeedByte, 0xffffffff, DIGITS[..5]) == 0x340ac5e3
  {
    assert DIGITS[..5] == [0x31, 0x32, 0x33, 0x34, 0x35];
    FeedKnown(0xffffffff, 0x31, 0xffffffce, 0x7cdcefb7, 0x7c231048);
    FeedKnown(0x7c231048, 0x32, 0x7c23107a, 0xb0d09822, 0xb0acbb32);
    FeedKnown(0xb0acbb32, 0x33, 0xb0acbb01, 0x77073096, 0x77b79c2d);
    FeedKnown(0x77b79c2d, 0x34, 0x77b79c19, 0x646ba8c0, 0x641c1f5c);
    FeedKnown(0x641c1f5c, 0x35, 0x641c1f69, 0x346ed9fc, 0x340ac5e3);
    FoldFirst(0xffffffff, 0x31, [0x32, 0x33, 0x34, 0x35]);
    FoldFirst(0x7c231048, 0x32, [0x33, 0x34, 0x35]);
    FoldFirst(0xb0acbb32, 0x33, [0x34, 0x35]);
    FoldFirst(0x77b79c2d, 0x34, [0x35]);
    FoldFirst(0x641c1f5c, 0x35, []);
  }

  lemma LastDigits()
    ensures Fold(FeedByte, 0x340ac5e3, DIGITS[5..]) == 0x340bc6d9
  {
    assert DIGITS[5..] == [0x36, 0x37, 0x38, 0x39];
    FeedKnown(0x340ac5e3, 0x36, 0x340ac5d5, 0xf6b9265b, 0xf68d2c9e);
    FeedKnown(0xf68d2c9e, 0x37, 0xf68d2ca9, 0xaf0a1b4c, 0xaffc9660);
    FeedKnown(0xaffc9660, 0x38, 0xaffc9658, 0x65b0d9c6, 0x651f2550);
    FeedKnown(0x651f2550, 0x39, 0x651f2569, 0x346ed9fc, 0x340bc6d9);
    FoldFirst(0x340ac5e3, 0x36, [0x37, 0x38, 0x39]);
    FoldFirst(0xf68d2c9e, 0x37, [0x38, 0x39]);
    FoldFirst(0xaffc9660, 0x38, [0x39]);
    FoldFirst(0x651f2550, 0x39, []);
  }
}
