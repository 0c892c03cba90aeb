/** The table-driven CRC-32 of sparse_crc32.cpp (the algorithm of section 8 of RFC 1952),
    its bit-serial reference, and the algebra that error detection rests on. */
module Crc32 {
  import opened Bytes
  import opened ShiftAlgebra
  import opened Crc32Table

  const ONES: word := 0xffff_ffff

  // ---------- The reference: one message bit at a time ----------

  function FeedBit(reg: word, bit: bool): word {
    Shift(Xor(reg, if bit then 1 else 0))
  }

  /** The n low bits of a word, least significant first, as they leave a UART. */
  function LowBits(x: word, n: nat): (bits: seq<bool>)
    ensures |bits| == n
    decreases n
  {
    if n == 0 then [] else [x & 1 == 1] + LowBits(x >> 1, n - 1)
  }

  function Bits(buf: seq<byte>): seq<bool> {
    if buf == [] then [] else LowBits(buf[0] as word, 8) + Bits(buf[1..])
  }

  /** The checksum as shift/xor division of the message's bits. */
  ghost function Crc(seed: word, buf: seq<byte>): word {
    Xor(Fold(FeedBit, Xor(seed, ONES), Bits(buf)), ONES)
  }

  // ---------- The table-driven loop ----------

  method SparseCrc32(crcIn: word, buf: array<byte>) returns (crc: word)
    ensures crc == Crc(crcIn, buf[..])
  {
    ghost var all := buf[..];
    ghost var start := Xor(crcIn, ONES);
    crc := Xor(crcIn, ONES);
    var p := 0;
    while p < buf.Length
      invariant 0 <= p <= buf.Length
      invariant Fold(FeedByte, crc, all[p..]) == Fold(FeedByte, start, all)
    {
      FoldAt(FeedByte, crc, all, p);
      crc := UpdateRegister(crc, buf[p]);
      p := p + 1;
    }
    ByteSerial(crcIn, all);
    crc := Xor(crc, ONES);
  }

  /** The loop body: crc32_tab[(crc ^ *p) & 0xFF] ^ (crc >> 8). */
  method UpdateRegister(reg: word, b: byte) returns (r: word)
    ensures r == FeedByte(reg, b)
  {
    TableLookup(reg, b);
    r := Xor(CRC32_TAB[((reg ^ (b as word)) & 0xff) as int], reg >> 8);
  }

  /** What a byte does to the register: eight steps. */
  ghost function FeedByte(reg: word, b: byte): word {
    Steps(Xor(reg, b as word), 8)
  }

  /** The loop body takes the register where eight steps take it. */
  lemma TableLookup(reg: word, b: byte)
    ensures var i := (reg ^ (b as word)) & 0xff;
      && |CRC32_TAB| == 256 && (i as int) < 256
      && Xor(CRC32_TAB[i as int], reg >> 8) == FeedByte(reg, b)
  {
    TableIsEightSteps((reg ^ (b as word)) & 0xff);
    LowByte(reg, b);
    StepsByByte(Xor(reg, b as word));
  }

  lemma LowByte(reg: word, b: byte)
    ensures (reg ^ (b as word)) & 0xff == Xor(reg, b as word) & 0xff < 256
    ensures Xor(reg, b as word) >> 8 == reg >> 8
  {
  }

  /** Eight steps: a function of the low byte, and a move of the rest. */
  lemma StepsByByte(x: word)
    ensures Steps(x, 8) == Xor(Steps(x & 0xff, 8), x >> 8)
  {
    LowAndHigh(x);
    StepsOfParts(x, x & 0xff, x & 0xffff_ff00);
  }

  lemma LowAndHigh(x: word)
    ensures Xor(x & 0xff, x & 0xffff_ff00) == x
    ensures (x & 0xffff_ff00) & 0xff == 0 && (x & 0xffff_ff00) >> 8 == x >> 8
  {
  }

  lemma StepsOfParts(x: word, low: word, high: word)
    requires x == Xor(low, high) && high & 0xff == 0
    ensures Steps(x, 8) == Xor(Steps(low, 8), high >> 8)
  {
    StepsXor(low, high, 8);
    LowByteClear(high);
    StepsLowClear(high, 8);
  }

  // ---------- Bytes refine bits ----------

  /** n steps of a register xored with x are its n low bits fed in turn, plus what is left
      of x. */
  lemma {:induction false} FeedLowBits(reg: word, x: word, n: nat)
    ensures Steps(Xor(reg, x), n) == Xor(Fold(FeedBit, reg, LowBits(x, n)), ShiftRight(x, n))
    decreases n
  {
    if n > 0 {
      FirstBit(reg, x);
      assert LowBits(x, n)[1..] == LowBits(x >> 1, n - 1);
      FeedLowBits(FeedBit(reg, x & 1 == 1), x >> 1, n - 1);
    }
  }

  lemma FirstBit(reg: word, x: word)
    ensures Shift(Xor(reg, x)) == Xor(FeedBit(reg, x & 1 == 1), x >> 1)
  {
    var low, even := if x & 1 == 1 then 1 else 0, x & 0xffff_fffe;
    LowBitAndRest(x, low, even);
    XorAssoc(reg, low, even);
    ShiftOfParts(Xor(reg, low), even);
  }

  lemma LowBitAndRest(x: word, low: word, even: word)
    requires low == (if x & 1 == 1 then 1 else 0) && even == x & 0xffff_fffe
    ensures Xor(low, even) == x && even & 1 == 0 && even >> 1 == x >> 1
  {
  }

  lemma ShiftOfParts(x: word, even: word)
    requires even & 1 == 0
    ensures Shift(Xor(x, even)) == Xor(Shift(x), even >> 1)
  {
    ShiftXor(x, even);
    ShiftEven(even);
  }

  lemma ByteFits(b: byte)
    ensures ShiftRight(b as word, 8) == 0
  {
    assert ShiftRight(b as word, 8) == ShiftRight((b as word) >> 4, 4);
    assert ShiftRight((b as word) >> 4, 4) == (b as word) >> 8;
  }

  lemma XorZero(x: word)
    ensures Xor(x, 0) == x
  {
  }

  lemma FeedByteIsEightBits(reg: word, b: byte)
    ensures FeedByte(reg, b) == Fold(FeedBit, reg, LowBits(b as word, 8))
  {
    FeedLowBits(reg, b as word, 8);
    ByteFits(b);
    XorZero(Fold(FeedBit, reg, LowBits(b as word, 8)));
  }

  lemma {:induction false} BytesRefineBits(reg: word, buf: seq<byte>)
    ensures Fold(FeedByte, reg, buf) == Fold(FeedBit, reg, Bits(buf))
    decreases buf
  {
    if buf != [] {
      FeedByteIsEightBits(reg, buf[0]);
      BytesRefineBits(FeedByte(reg, buf[0]), buf[1..]);
      FoldAppend(FeedBit, reg, LowBits(buf[0] as word, 8), Bits(buf[1..]));
    }
  }

  /** The checksum a byte at a time is the checksum a bit at a time. */
  lemma ByteSerial(seed: word, buf: seq<byte>)
    ensures Crc(seed, buf) == Xor(Fold(FeedByte, Xor(seed, ONES), buf), ONES)
  {
    BytesRefineBits(Xor(seed, ONES), buf);
  }

  // ---------- Streaming and affinity ----------

  /** A checksum can be continued: the first result seeds the second call. */
  lemma Streaming(seed: word, a: seq<byte>, b: seq<byte>)
    ensures Crc(Crc(seed, a), b) == Crc(seed, a + b)
  {
    ByteSerial(seed, a);
    ByteSerial(Crc(seed, a), b);
    ByteSerial(seed, a + b);
    FoldAppend(FeedByte, Xor(seed, ONES), a, b);
    XorTwice(Fold(FeedByte, Xor(seed, ONES), a));
  }

  lemma XorTwice(x: word)
    ensures Xor(Xor(x, ONES), ONES) == x
  {
  }

  function XorByte(a: byte, b: byte): byte {
    a ^ b
  }

  lemma FeedByteXor(q: word, r: word, a: byte, b: byte)
    ensures FeedByte(Xor(q, r), XorByte(a, b)) == Xor(FeedByte(q, a), FeedByte(r, b))
  {
    WidenXor(a, b);
    XorCommutative();
    Regroup(Xor, q, r, a as word, b as word);
    StepsXor(Xor(q, a as word), Xor(r, b as word), 8);
  }

  lemma WidenXor(a: byte, b: byte)
    ensures XorByte(a, b) as word == Xor(a as word, b as word)
  {
  }

  lemma FeedByteDistributes()
    ensures DistributesOver(FeedByte, Xor, XorByte)
  {
    forall q, r, a, b ensures FeedByte(Xor(q, r), XorByte(a, b)) == Xor(FeedByte(q, a), FeedByte(r, b)) {
      FeedByteXor(q, r, a, b);
    }
  }

  /** The checksum is affine: over three buffers of one length the complements of the register
      cancel, whatever the seeds. */
  lemma Affine(s1: word, s2: word, s3: word, x: seq<byte>, y: seq<byte>, z: seq<byte>)
    requires |x| == |y| == |z|
    ensures Xor(Xor(Crc(s1, x), Crc(s2, y)), Crc(s3, z))
         == Crc(Xor(Xor(s1, s2), s3), Zip(XorByte, Zip(XorByte, x, y), z))
  {
    var r1, r2, r3 := Xor(s1, ONES), Xor(s2, ONES), Xor(s3, ONES);
    ByteSerial(s1, x);
    ByteSerial(s2, y);
    ByteSerial(s3, z);
    ByteSerial(Xor(Xor(s1, s2), s3), Zip(XorByte, Zip(XorByte, x, y), z));
    FeedByteDistributes();
    FoldDistributes(FeedByte, Xor, XorByte, r1, r2, x, y);
    FoldDistributes(FeedByte, Xor, XorByte, Xor(r1, r2), r3, Zip(XorByte, x, y), z);
    ThreeComplements(s1, s2, s3);
    ThreeComplements(Fold(FeedByte, r1, x), Fold(FeedByte, r2, y), Fold(FeedByte, r3, z));
  }

  lemma ThreeComplements(a: word, b: word, c: word)
    ensures Xor(Xor(Xor(a, ONES), Xor(b, ONES)), Xor(c, ONES)) == Xor(Xor(Xor(a, b), c), ONES)
  {
  }

  // ---------- Burst detection ----------

  lemma XorCancels(q: word, r: word, w: word)
    ensures Xor(q, w) == Xor(r, w) ==> q == r
    ensures Xor(w, q) == Xor(w, r) ==> q == r
  {
  }

  lemma FeedBitKeepsApart()
    ensures KeepsApart(FeedBit)
  {
    forall q, r, bit | FeedBit(q, bit) == FeedBit(r, bit) ensures q == r {
      var w: word := if bit then 1 else 0;
      ShiftInjective(Xor(q, w), Xor(r, w));
      XorCancels(q, r, w);
    }
  }

  // ---------- 32 bits are the low bits of a word ----------

  /** The word whose low bits are these, the first one lowest. */
  function WordOf(bits: seq<bool>): word {
    if bits == [] then 0 else Pushed(WordOf(bits[1..]), bits[0])
  }

  function Pushed(w: word, bit: bool): word {
    if bit then (w << 1) | 1 else w << 1
  }

  /** The n low bits of the mask are set. */
  predicate Ones(mask: word, n: nat)
    decreases n
  {
    n == 0 || (mask & 1 == 1 && Ones(mask >> 1, n - 1))
  }

  lemma {:induction false} FewerOnes(mask: word, n: nat, k: nat)
    requires Ones(mask, n) && k <= n
    ensures Ones(mask, k)
    decreases n
  {
    if k > 0 {
      FewerOnes(mask >> 1, n - 1, k - 1);
    }
  }

  lemma MaskedBit(x: word, mask: word)
    requires mask & 1 == 1
    ensures (x & mask) & 1 == x & 1 && (x & mask) >> 1 == (x >> 1) & (mask >> 1)
  {
  }

  /** A mask keeps the low bits that are set in it. */
  lemma {:induction false} LowBitsMasked(x: word, mask: word, n: nat)
    requires Ones(mask, n)
    ensures LowBits(x & mask, n) == LowBits(x, n)
    decreases n
  {
    if n > 0 {
      MaskedBit(x, mask);
      LowBitsMasked(x >> 1, mask >> 1, n - 1);
    }
  }

  lemma OnesBelowTop(k: nat)
    requires k <= 31
    ensures Ones(0x7fff_ffff, k)
  {
    assert Ones(0, 0) && Ones(1, 1) && Ones(0x3, 2) && Ones(0x7, 3) && Ones(0xf, 4) && Ones(0x1f, 5) && Ones(0x3f, 6);
    assert Ones(0x7f, 7) && Ones(0xff, 8) && Ones(0x1ff, 9) && Ones(0x3ff, 10) && Ones(0x7ff, 11) && Ones(0xfff, 12);
    assert Ones(0x1fff, 13) && Ones(0x3fff, 14) && Ones(0x7fff, 15) && Ones(0xffff, 16) && Ones(0x1_ffff, 17);
    assert Ones(0x3_ffff, 18) && Ones(0x7_ffff, 19) && Ones(0xf_ffff, 20) && Ones(0x1f_ffff, 21);
    assert Ones(0x3f_ffff, 22) && Ones(0x7f_ffff, 23) && Ones(0xff_ffff, 24) && Ones(0x1ff_ffff, 25);
    assert Ones(0x3ff_ffff, 26) && Ones(0x7ff_ffff, 27) && Ones(0xfff_ffff, 28) && Ones(0x1fff_ffff, 29);
    assert Ones(0x3fff_ffff, 30) && Ones(0x7fff_ffff, 31);
    FewerOnes(0x7fff_ffff, 31, k);
  }

  lemma PushOne(w: word)
    ensures ((w << 1) | 1) & 1 == 1 && ((w << 1) | 1) >> 1 == w & 0x7fff_ffff
  {
  }

  lemma PushZero(w: word)
    ensures (w << 1) & 1 == 0 && (w << 1) >> 1 == w & 0x7fff_ffff
  {
  }

  /** Pushing a bit loses the top one and can be undone. */
  lemma PushBit(w: word, bit: bool, x: word)
    requires x == Pushed(w, bit)
    ensures (x & 1 == 1 <==> bit) && x >> 1 == w & 0x7fff_ffff
  {
    if bit {
      PushOne(w);
    } else {
      PushZero(w);
    }
  }

  lemma KeptLowBits(w: word, n: nat, r: word)
    requires n <= 31 && r == w & 0x7fff_ffff
    ensures LowBits(r, n) == LowBits(w, n)
  {
    OnesBelowTop(n);
    LowBitsMasked(w, 0x7fff_ffff, n);
  }

  /** Pushing a bit puts it before the low bits. */
  lemma PushedLowBits(w: word, bit: bool, x: word, r: word, n: nat)
    requires n <= 31 && x == Pushed(w, bit) && r == w & 0x7fff_ffff
    ensures LowBits(x, n + 1) == [bit] + LowBits(w, n)
  {
    PushBit(w, bit, x);
    KeptLowBits(w, n, r);
    FirstLowBit(x, r, bit, n);
  }

  lemma FirstLowBit(x: word, rest: word, bit: bool, n: nat)
    requires (x & 1 == 1 <==> bit) && x >> 1 == rest
    ensures LowBits(x, n + 1) == [bit] + LowBits(rest, n)
  {
  }

  lemma FirstAndRest(bits: seq<bool>)
    requires bits != []
    ensures [bits[0]] + bits[1..] == bits
  {
  }

  lemma {:induction false} WordOfBits(bits: seq<bool>)
    requires |bits| <= 32
    ensures LowBits(WordOf(bits), |bits|) == bits
  {
    if bits != [] {
      WordOfBits(bits[1..]);
      WordOfMore(bits, WordOf(bits[1..]), |bits| - 1);
      FirstAndRest(bits);
    }
  }

  lemma WordOfMore(bits: seq<bool>, w: word, n: nat)
    requires bits != [] && |bits| == n + 1 <= 32 && w == WordOf(bits[1..])
    ensures LowBits(WordOf(bits), n + 1) == [bits[0]] + LowBits(w, n)
  {
    PushedLowBits(w, bits[0], WordOf(bits), w & 0x7fff_ffff, n);
  }

  lemma AllShiftedOut(x: word)
    ensures ShiftRight(x, 32) == 0
  {
    ShiftedBytes(x);
    ShiftedBytes(x >> 8);
    ShiftedBytes(x >> 16);
    ShiftedBytes(x >> 24);
    ShiftAdd(x, 8, 24);
    ShiftAdd(x >> 8, 8, 16);
    ShiftAdd(x >> 16, 8, 8);
    FourShifts(x);
  }

  lemma FourShifts(x: word)
    ensures (x >> 8) >> 8 == x >> 16 && (x >> 16) >> 8 == x >> 24 && (x >> 24) >> 8 == 0
  {
  }

  lemma ShiftedBytes(x: word)
    ensures ShiftRight(x, 8) == x >> 8
  {
    assert ShiftRight(x, 8) == ShiftRight(x >> 4, 4) && ShiftRight(x >> 4, 4) == (x >> 4) >> 4;
  }

  lemma {:induction false} ShiftAdd(x: word, m: nat, n: nat)
    ensures ShiftRight(x, m + n) == ShiftRight(ShiftRight(x, m), n)
    decreases m
  {
    if m > 0 {
      ShiftAdd(x >> 1, m - 1, n);
    }
  }

  /** 32 bits fed in turn are 32 steps of the register xored with their word. */
  lemma BitsAreSteps(reg: word, bits: seq<bool>)
    requires |bits| == 32
    ensures Fold(FeedBit, reg, bits) == Steps(Xor(reg, WordOf(bits)), 32)
  {
    WordOfBits(bits);
    FeedLowBits(reg, WordOf(bits), 32);
    AllShiftedOut(WordOf(bits));
    XorZero(Fold(FeedBit, reg, bits));
  }

  lemma SameWindowBits(reg: word, a: seq<bool>, b: seq<bool>)
    requires |a| == |b| == 32 && Fold(FeedBit, reg, a) == Fold(FeedBit, reg, b)
    ensures a == b
  {
    BitsAreSteps(reg, a);
    BitsAreSteps(reg, b);
    StepsInjective(Xor(reg, WordOf(a)), Xor(reg, WordOf(b)), 32);
    XorCancels(WordOf(a), WordOf(b), reg);
    WordOfBits(a);
    WordOfBits(b);
  }

  // ---------- The bits of a buffer determine it ----------

  lemma SameByte(a: byte, b: byte)
    requires LowBits(a as word, 8) == LowBits(b as word, 8)
    ensures a == b
  {
    FeedByteIsEightBits(0, a);
    FeedByteIsEightBits(0, b);
    StepsInjective(Xor(0, a as word), Xor(0, b as word), 8);
    XorCancels(a as word, b as word, 0);
    Narrow(a, b);
  }

  lemma Narrow(a: byte, b: byte)
    requires a as word == b as word
    ensures a == b
  {
  }

  lemma {:induction false} BitsLength(x: seq<byte>)
    ensures |Bits(x)| == 8 * |x|
  {
    if x != [] {
      BitsLength(x[1..]);
    }
  }

  lemma {:induction false} BitsInjective(x: seq<byte>, y: seq<byte>)
    requires Bits(x) == Bits(y)
    ensures x == y
  {
    BitsLength(x);
    BitsLength(y);
    if x != [] {
      var a, b := LowBits(x[0] as word, 8), LowBits(y[0] as word, 8);
      assert a == Bits(x)[..8] && b == Bits(y)[..8];
      assert Bits(x[1..]) == Bits(x)[8..] && Bits(y[1..]) == Bits(y)[8..];
      SameByte(x[0], y[0]);
      BitsInjective(x[1..], y[1..]);
    }
  }

  /** Bytes that differ within w places have bits that differ within 8 * w places. */
  lemma {:induction false} BitsDifferWithin(x: seq<byte>, y: seq<byte>, p: nat, w: nat)
    requires DifferWithin(x, y, p, w)
    ensures DifferWithin(Bits(x), Bits(y), 8 * p, 8 * w)
    decreases |x|
  {
    BitsLength(x);
    BitsLength(y);
    if w == 0 {
      assert x == y;
    } else if x != [] {
      var a, b, s, t := LowBits(x[0] as word, 8), LowBits(y[0] as word, 8), Bits(x[1..]), Bits(y[1..]);
      if p > 0 {
        BitsDifferWithin(x[1..], y[1..], p - 1, w);
        SamePrefix(a, s, t, 8 * (p - 1), 8 * w);
      } else {
        BitsDifferWithin(x[1..], y[1..], 0, w - 1);
        OtherPrefix(a, b, s, t, 8 * (w - 1));
      }
    }
  }

  // ---------- Results ----------

  /** Any change confined to 32 consecutive bits of a buffer, at any alignment, changes its checksum,
      from any seed. */
  lemma BitBurstDetected(seed: word, x: seq<byte>, y: seq<byte>, p: nat)
    requires DifferWithin(Bits(x), Bits(y), p, 32) && Crc(seed, x) == Crc(seed, y)
    ensures x == y
  {
    var reg := Xor(seed, ONES);
    XorCancels(Fold(FeedBit, reg, Bits(x)), Fold(FeedBit, reg, Bits(y)), ONES);
    FeedBitKeepsApart();
    forall q, a, b | |a| == |b| == 32 && Fold(FeedBit, q, a) == Fold(FeedBit, q, b) ensures a == b {
      SameWindowBits(q, a, b);
    }
    FoldTellsApart(FeedBit, reg, Bits(x), Bits(y), p, 32, LowBits(0, 32));
    BitsInjective(x, y);
  }

  /** Any change confined to four consecutive bytes changes the checksum. */
  lemma BurstDetected(seed: word, x: seq<byte>, y: seq<byte>, p: nat)
    requires DifferWithin(x, y, p, 4) && Crc(seed, x) == Crc(seed, y)
    ensures x == y
  {
    BitsDifferWithin(x, y, p, 4);
    BitBurstDetected(seed, x, y, 8 * p);
  }
}
