/** The feedback table of sparse_crc32.cpp and the proof that each of its 256
    entries is eight shift/xor steps of its index. */
module Crc32Table {
  import opened Bytes
  import opened ShiftAlgebra

  /** The polynomial, highest-order term in the lowest-order bit. */
  const POLY: word := 0xedb88320

  // ---------- The shift register ----------

  /** One step of the shift register. */
  function Shift(x: word): word {
    Xor(Half(x), Feedback(x))
  }

  function Half(x: word): word {
    x >> 1
  }

  function Feedback(x: word): word {
    if x & 1 == 1 then POLY else 0
  }

  function Xor(x: word, y: word): word {
    x ^ y
  }

  ghost function Steps(x: word, n: nat): word {
    Iterate(Shift, x, n)
  }

  lemma ShiftXor(x: word, y: word)
    ensures Shift(Xor(x, y)) == Xor(Shift(x), Shift(y))
  {
    ShiftDistributes();
  }

  lemma HalfXor(x: word, y: word)
    ensures (x ^ y) >> 1 == (x >> 1) ^ (y >> 1)
  {
  }

  lemma LowBitXor(x: word, y: word)
    ensures (x ^ y) & 1 == 1 <==> (x & 1 == 1) != (y & 1 == 1)
  {
  }

  lemma FeedbackXor(x: word, y: word)
    ensures Feedback(Xor(x, y)) == Xor(Feedback(x), Feedback(y))
  {
    LowBitXor(x, y);
  }

  lemma XorAssoc(x: word, y: word, z: word)
    ensures Xor(x, Xor(y, z)) == Xor(Xor(x, y), z)
  {
    assert Xor(y, z) == y ^ z && Xor(x, y) == x ^ y;
    assert Xor(x, y ^ z) == x ^ (y ^ z) && Xor(x ^ y, z) == (x ^ y) ^ z;
    Assoc(x, y, z);
  }

  lemma Assoc(x: word, y: word, z: word)
    ensures x ^ (y ^ z) == (x ^ y) ^ z
  {
  }

  lemma XorComm(x: word, y: word)
    ensures Xor(x, y) == Xor(y, x)
  {
  }

  lemma XorCommutative()
    ensures Commutative(Xor)
  {
    forall a, b, c ensures Xor(a, Xor(b, c)) == Xor(Xor(a, b), c) {
      XorAssoc(a, b, c);
    }
    forall a, b ensures Xor(a, b) == Xor(b, a) {
      XorComm(a, b);
    }
  }

  lemma HalfDistributes()
    ensures Distributes(Half, Xor)
  {
    forall a, b ensures Half(Xor(a, b)) == Xor(Half(a), Half(b)) {
      HalfXor(a, b);
    }
  }

  lemma FeedbackDistributes()
    ensures Distributes(Feedback, Xor)
  {
    forall a, b ensures Feedback(Xor(a, b)) == Xor(Feedback(a), Feedback(b)) {
      FeedbackXor(a, b);
    }
  }

  lemma ShiftIsSum()
    ensures forall x :: Shift(x) == Xor(Half(x), Feedback(x))
  {
  }

  lemma ShiftDistributes()
    ensures Distributes(Shift, Xor)
  {
    HalfDistributes();
    FeedbackDistributes();
    XorCommutative();
    ShiftIsSum();
    SumDistributes(Shift, Half, Feedback, Xor);
  }

  /** Stepping the register is linear over exclusive or. */
  lemma StepsXor(x: word, y: word, n: nat)
    ensures Steps(Xor(x, y), n) == Xor(Steps(x, n), Steps(y, n))
  {
    ShiftDistributes();
    IterateDistributes(Shift, Xor, x, y, n);
  }

  /** No two register values step to the same value: the polynomial's top bit tells
      which branch was taken. */
  lemma StepsInjective(x: word, y: word, n: nat)
    requires Steps(x, n) == Steps(y, n)
    ensures x == y
  {
    forall a, b | Shift(a) == Shift(b) ensures a == b {
      ShiftInjective(a, b);
    }
    IterateInjective(Shift, x, y, n);
  }

  lemma ShiftInjective(x: word, y: word)
    requires Shift(x) == Shift(y)
    ensures x == y
  {
  }

  function ShiftRight(x: word, n: nat): word
    decreases n
  {
    if n == 0 then x else ShiftRight(x >> 1, n - 1)
  }

  ghost predicate LowClear(x: word, n: nat)
    decreases n
  {
    n == 0 || (x & 1 == 0 && LowClear(x >> 1, n - 1))
  }

  /** A register whose low bits are clear just moves right. */
  lemma {:induction false} StepsLowClear(x: word, n: nat)
    requires LowClear(x, n)
    ensures Steps(x, n) == ShiftRight(x, n)
    decreases n
  {
    if n > 0 {
      ShiftEven(x);
      StepsLowClear(x >> 1, n - 1);
    }
  }

  lemma ShiftEven(x: word)
    requires x & 1 == 0
    ensures Shift(x) == x >> 1
  {
  }

  lemma LowByteClear(x: word)
    requires x & 0xff == 0
    ensures LowClear(x, 8) && ShiftRight(x, 8) == x >> 8
  {
    assert LowClear(x >> 6, 2) && ShiftRight(x >> 6, 2) == x >> 8;
    assert LowClear(x >> 4, 4) && ShiftRight(x >> 4, 4) == x >> 8;
    assert LowClear(x >> 2, 6) && ShiftRight(x >> 2, 6) == x >> 8;
  }

  // ---------- The table ----------

  // Sixteen consecutive entries of crc32_tab each.
  const ROW_0: seq<word> := [
    0x00000000, 0x77073096, 0xee0e612c, 0x990951ba, 0x076dc419, 0x706af48f, 0xe963a535, 0x9e6495a3,
    0x0edb8832, 0x79dcb8a4, 0xe0d5e91e, 0x97d2d988, 0x09b64c2b, 0x7eb17cbd, 0xe7b82d07, 0x90bf1d91]
  const ROW_1: seq<word> := [
    0x1db71064, 0x6ab020f2, 0xf3b97148, 0x84be41de, 0x1adad47d, 0x6ddde4eb, 0xf4d4b551, 0x83d385c7,
    0x136c9856, 0x646ba8c0, 0xfd62f97a, 0x8a65c9ec, 0x14015c4f, 0x63066cd9, 0xfa0f3d63, 0x8d080df5]
  const ROW_2: seq<word> := [
    0x3b6e20c8, 0x4c69105e, 0xd56041e4, 0xa2677172, 0x3c03e4d1, 0x4b04d447, 0xd20d85fd, 0xa50ab56b,
    0x35b5a8fa, 0x42b2986c, 0xdbbbc9d6, 0xacbcf940, 0x32d86ce3, 0x45df5c75, 0xdcd60dcf, 0xabd13d59]
  const ROW_3: seq<word> := [
    0x26d930ac, 0x51de003a, 0xc8d75180, 0xbfd06116, 0x21b4f4b5, 0x56b3c423, 0xcfba9599, 0xb8bda50f,
    0x2802b89e, 0x5f058808, 0xc60cd9b2, 0xb10be924, 0x2f6f7c87, 0x58684c11, 0xc1611dab, 0xb6662d3d]
  const ROW_4: seq<word> := [
    0x76dc4190, 0x01db7106, 0x98d220bc, 0xefd5102a, 0x71b18589, 0x06b6b51f, 0x9fbfe4a5, 0xe8b8d433,
    0x7807c9a2, 0x0f00f934, 0x9609a88e, 0xe10e9818, 0x7f6a0dbb, 0x086d3d2d, 0x91646c97, 0xe6635c01]
  const ROW_5: seq<word> := [
    0x6b6b51f4, 0x1c6c6162, 0x856530d8, 0xf262004e, 0x6c0695ed, 0x1b01a57b, 0x8208f4c1, 0xf50fc457,
    0x65b0d9c6, 0x12b7e950, 0x8bbeb8ea, 0xfcb9887c, 0x62dd1ddf, 0x15da2d49, 0x8cd37cf3, 0xfbd44c65]
  const ROW_6: seq<word> := [
    0x4db26158, 0x3ab551ce, 0xa3bc0074, 0xd4bb30e2, 0x4adfa541, 0x3dd895d7, 0xa4d1c46d, 0xd3d6f4fb,
    0x4369e96a, 0x346ed9fc, 0xad678846, 0xda60b8d0, 0x44042d73, 0x33031de5, 0xaa0a4c5f, 0xdd0d7cc9]
  const ROW_7: seq<word> := [
    0x5005713c, 0x270241aa, 0xbe0b1010, 0xc90c2086, 0x5768b525, 0x206f85b3, 0xb966d409, 0xce61e49f,
    0x5edef90e, 0x29d9c998, 0xb0d09822, 0xc7d7a8b4, 0x59b33d17, 0x2eb40d81, 0xb7bd5c3b, 0xc0ba6cad]
  const ROW_8: seq<word> := [
    0xedb88320, 0x9abfb3b6, 0x03b6e20c, 0x74b1d29a, 0xead54739, 0x9dd277af, 0x04db2615, 0x73dc1683,
    0xe3630b12, 0x94643b84, 0x0d6d6a3e, 0x7a6a5aa8, 0xe40ecf0b, 0x9309ff9d, 0x0a00ae27, 0x7d079eb1]
  const ROW_9: seq<word> := [
    0xf00f9344, 0x8708a3d2, 0x1e01f268, 0x6906c2fe, 0xf762575d, 0x806567cb, 0x196c3671, 0x6e6b06e7,
    0xfed41b76, 0x89d32be0, 0x10da7a5a, 0x67dd4acc, 0xf9b9df6f, 0x8ebeeff9, 0x17b7be43, 0x60b08ed5]
  const ROW_A: seq<word> := [
    0xd6d6a3e8, 0xa1d1937e, 0x38d8c2c4, 0x4fdff252, 0xd1bb67f1, 0xa6bc5767, 0x3fb506dd, 0x48b2364b,
    0xd80d2bda, 0xaf0a1b4c, 0x36034af6, 0x41047a60, 0xdf60efc3, 0xa867df55, 0x316e8eef, 0x4669be79]
  const ROW_B: seq<word> := [
    0xcb61b38c, 0xbc66831a, 0x256fd2a0, 0x5268e236, 0xcc0c7795, 0xbb0b4703, 0x220216b9, 0x5505262f,
    0xc5ba3bbe, 0xb2bd0b28, 0x2bb45a92, 0x5cb36a04, 0xc2d7ffa7, 0xb5d0cf31, 0x2cd99e8b, 0x5bdeae1d]
  const ROW_C: seq<word> := [
    0x9b64c2b0, 0xec63f226, 0x756aa39c, 0x026d930a, 0x9c0906a9, 0xeb0e363f, 0x72076785, 0x05005713,
    0x95bf4a82, 0xe2b87a14, 0x7bb12bae, 0x0cb61b38, 0x92d28e9b, 0xe5d5be0d, 0x7cdcefb7, 0x0bdbdf21]
  const ROW_D: seq<word> := [
    0x86d3d2d4, 0xf1d4e242, 0x68ddb3f8, 0x1fda836e, 0x81be16cd, 0xf6b9265b, 0x6fb077e1, 0x18b74777,
    0x88085ae6, 0xff0f6a70, 0x66063bca, 0x11010b5c, 0x8f659eff, 0xf862ae69, 0x616bffd3, 0x166ccf45]
  const ROW_E: seq<word> := [
    0xa00ae278, 0xd70dd2ee, 0x4e048354, 0x3903b3c2, 0xa7672661, 0xd06016f7, 0x4969474d, 0x3e6e77db,
    0xaed16a4a, 0xd9d65adc, 0x40df0b66, 0x37d83bf0, 0xa9bcae53, 0xdebb9ec5, 0x47b2cf7f, 0x30b5ffe9]
  const ROW_F: seq<word> := [
    0xbdbdf21c, 0xcabac28a, 0x53b39330, 0x24b4a3a6, 0xbad03605, 0xcdd70693, 0x54de5729, 0x23d967bf,
    0xb3667a2e, 0xc4614ab8, 0x5d681b02, 0x2a6f2b94, 0xb40bbe37, 0xc30c8ea1, 0x5a05df1b, 0x2d02ef8d]

  const ROWS: seq<seq<word>> := [
    ROW_0, ROW_1, ROW_2, ROW_3, ROW_4, ROW_5, ROW_6, ROW_7,
    ROW_8, ROW_9, ROW_A, ROW_B, ROW_C, ROW_D, ROW_E, ROW_F]

  const CRC32_TAB: seq<word> := Concat(ROWS)

  function Concat(rows: seq<seq<word>>): seq<word> {
    if rows == [] then [] else rows[0] + Concat(rows[1..])
  }

  lemma {:induction false} ConcatAt(rows: seq<seq<word>>, h: nat, j: nat)
    requires h < |rows| && j < 16
    requires forall i :: 0 <= i < |rows| ==> |rows[i]| == 16
    ensures |Concat(rows)| == 16 * |rows| && Concat(rows)[16 * h + j] == rows[h][j]
  {
    if |rows| > 1 {
      ConcatAt(rows[1..], if h > 0 then h - 1 else 0, j);
    }
  }

  lemma RowSizes()
    ensures |ROWS| == 16 && forall i :: 0 <= i < |ROWS| ==> |ROWS[i]| == 16
  {
  }

  lemma TableRow(h: nat, j: nat)
    requires h < 16 && j < 16
    ensures |ROWS| == 16 && |ROWS[h]| == 16
    ensures |CRC32_TAB| == 256 && CRC32_TAB[16 * h + j] == ROWS[h][j]
  {
    RowSizes();
    ConcatAt(ROWS, h, j);
  }

  // ---------- Every entry is eight steps of its index ----------

  function Contribution(x: word, m: word, v: word): word {
    if x & m == 0 then 0 else v
  }

  /** Eight steps of a byte, as the sum of what its bits contribute. */
  function BitSum(x: word): word {
    Sum8(Xor,
         Contribution(x, 1, 0x77073096), Contribution(x, 2, 0xee0e612c),
         Contribution(x, 4, 0x076dc419), Contribution(x, 8, 0x0edb8832),
         Contribution(x, 0x10, 0x1db71064), Contribution(x, 0x20, 0x3b6e20c8),
         Contribution(x, 0x40, 0x76dc4190), Contribution(x, 0x80, 0xedb88320))
  }

  lemma Row0(lo: word)
    requires lo < 16
    ensures |ROW_0| == 16 && ROW_0[lo as int] == BitSum(0x00 | lo)
  {
  }

  lemma Row1(lo: word)
    requires lo < 16
    ensures |ROW_1| == 16 && ROW_1[lo as int] == BitSum(0x10 | lo)
  {
  }

  lemma Row2(lo: word)
    requires lo < 16
    ensures |ROW_2| == 16 && ROW_2[lo as int] == BitSum(0x20 | lo)
  {
  }

  lemma Row3(lo: word)
    requires lo < 16
    ensures |ROW_3| == 16 && ROW_3[lo as int] == BitSum(0x30 | lo)
  {
  }

  lemma Row4(lo: word)
    requires lo < 16
    ensures |ROW_4| == 16 && ROW_4[lo as int] == BitSum(0x40 | lo)
  {
  }

  lemma Row5(lo: word)
    requires lo < 16
    ensures |ROW_5| == 16 && ROW_5[lo as int] == BitSum(0x50 | lo)
  {
  }

  lemma Row6(lo: word)
    requires lo < 16
    ensures |ROW_6| == 16 && ROW_6[lo as int] == BitSum(0x60 | lo)
  {
  }

  lemma Row7(lo: word)
    requires lo < 16
    ensures |ROW_7| == 16 && ROW_7[lo as int] == BitSum(0x70 | lo)
  {
  }

  lemma Row8(lo: word)
    requires lo < 16
    ensures |ROW_8| == 16 && ROW_8[lo as int] == BitSum(0x80 | lo)
  {
  }

  lemma Row9(lo: word)
    requires lo < 16
    ensures |ROW_9| == 16 && ROW_9[lo as int] == BitSum(0x90 | lo)
  {
  }

  lemma RowA(lo: word)
    requires lo < 16
    ensures |ROW_A| == 16 && ROW_A[lo as int] == BitSum(0xa0 | lo)
  {
  }

  lemma RowB(lo: word)
    requires lo < 16
    ensures |ROW_B| == 16 && ROW_B[lo as int] == BitSum(0xb0 | lo)
  {
  }

  lemma RowC(lo: word)
    requires lo < 16
    ensures |ROW_C| == 16 && ROW_C[lo as int] == BitSum(0xc0 | lo)
  {
  }

  lemma RowD(lo: word)
    requires lo < 16
    ensures |ROW_D| == 16 && ROW_D[lo as int] == BitSum(0xd0 | lo)
  {
  }

  lemma RowE(lo: word)
    requires lo < 16
    ensures |ROW_E| == 16 && ROW_E[lo as int] == BitSum(0xe0 | lo)
  {
  }

  lemma RowF(lo: word)
    requires lo < 16
    ensures |ROW_F| == 16 && ROW_F[lo as int] == BitSum(0xf0 | lo)
  {
  }

  lemma LowEntryIsBitSum(x: word)
    requires x < 128
    ensures |CRC32_TAB| == 256 && CRC32_TAB[x as int] == BitSum(x)
  {
    var hi, lo := x >> 4, x & 0xf;
    TableRow(hi as int, lo as int);
    assert ((hi << 4) | lo) == x;
    match hi as int
    case 0 => Row0(lo);
    case 1 => Row1(lo);
    case 2 => Row2(lo);
    case 3 => Row3(lo);
    case 4 => Row4(lo);
    case 5 => Row5(lo);
    case 6 => Row6(lo);
    case 7 => Row7(lo);
  }

  lemma HighEntryIsBitSum(x: word)
    requires 128 <= x < 256
    ensures |CRC32_TAB| == 256 && CRC32_TAB[x as int] == BitSum(x)
  {
    var hi, lo := x >> 4, x & 0xf;
    TableRow(hi as int, lo as int);
    assert ((hi << 4) | lo) == x;
    match hi as int
    case 8 => Row8(lo);
    case 9 => Row9(lo);
    case 10 => RowA(lo);
    case 11 => RowB(lo);
    case 12 => RowC(lo);
    case 13 => RowD(lo);
    case 14 => RowE(lo);
    case 15 => RowF(lo);
  }

  lemma FirstStep(x: word, y: word)
    requires Shift(x) == y
    ensures forall n :: n > 0 ==> Steps(x, n) == Steps(y, n - 1)
  {
  }

  lemma BitSteps()
    ensures Steps(0x80, 8) == 0xedb88320 && Steps(0x40, 8) == 0x76dc4190
    ensures Steps(0x20, 8) == 0x3b6e20c8 && Steps(0x10, 8) == 0x1db71064
    ensures Steps(8, 8) == 0x0edb8832 && Steps(4, 8) == 0x076dc419
    ensures Steps(2, 8) == 0xee0e612c && Steps(1, 8) == 0x77073096
  {
    FirstStep(0x80, 0x40);
    FirstStep(0x40, 0x20);
    FirstStep(0x20, 0x10);
    FirstStep(0x10, 8);
    FirstStep(8, 4);
    FirstStep(4, 2);
    FirstStep(2, 1);
    FirstStep(1, 0xedb88320);
    FirstStep(0xedb88320, 0x76dc4190);
    FirstStep(0x76dc4190, 0x3b6e20c8);
    FirstStep(0x3b6e20c8, 0x1db71064);
    FirstStep(0x1db71064, 0x0edb8832);
    FirstStep(0x0edb8832, 0x076dc419);
    FirstStep(0x076dc419, 0xee0e612c);
    FirstStep(0xee0e612c, 0x77073096);
  }

  lemma StepsZero(n: nat)
    ensures Steps(0, n) == 0
    decreases n
  {
    if n > 0 {
      ShiftEven(0);
      StepsZero(n - 1);
    }
  }

  /** What one bit of the index contributes to eight steps. */
  lemma OneBit(x: word, m: word, v: word)
    requires Steps(m, 8) == v
    requires x & m == 0 || x & m == m
    ensures Steps(x & m, 8) == Contribution(x, m, v)
  {
    StepsZero(8);
  }

  lemma BitsSum(x: word)
    requires x < 256
    ensures Sum8(Xor, x & 1, x & 2, x & 4, x & 8, x & 0x10, x & 0x20, x & 0x40, x & 0x80) == x
  {
  }

  lemma StepsOfBits(x: word)
    requires x < 256
    ensures Steps(x, 8)
         == Sum8(Xor, Steps(x & 1, 8), Steps(x & 2, 8), Steps(x & 4, 8), Steps(x & 8, 8),
                 Steps(x & 0x10, 8), Steps(x & 0x20, 8), Steps(x & 0x40, 8), Steps(x & 0x80, 8))
  {
    BitsSum(x);
    ShiftDistributes();
    IterateSum8(Shift, Xor, 8, x & 1, x & 2, x & 4, x & 8, x & 0x10, x & 0x20, x & 0x40, x & 0x80);
  }

  lemma BitSumIsSteps(x: word)
    requires x < 256
    ensures Steps(x, 8) == BitSum(x)
  {
    StepsOfBits(x);
    BitSteps();
    OneBit(x, 1, 0x77073096);
    OneBit(x, 2, 0xee0e612c);
    OneBit(x, 4, 0x076dc419);
    OneBit(x, 8, 0x0edb8832);
    OneBit(x, 0x10, 0x1db71064);
    OneBit(x, 0x20, 0x3b6e20c8);
    OneBit(x, 0x40, 0x76dc4190);
    OneBit(x, 0x80, 0xedb88320);
  }

  /** Each entry of crc32_tab is eight shift/xor steps of its index. */
  lemma TableIsEightSteps(x: word)
    requires x < 256
    ensures |CRC32_TAB| == 256 && CRC32_TAB[x as int] == Steps(x, 8)
  {
    if x < 128 { LowEntryIsBitSum(x); } else { HighEntryIsBitSum(x); }
    BitSumIsSteps(x);
  }
}
