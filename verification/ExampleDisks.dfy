/** A small disk, byte by byte, that meets what the results about good disks demand; and the headers
    that such disks are made of. */
module ExampleDisks {
  import opened Bytes
  import opened GptHeader
  import opened PartitionNames
  import opened BootChain
  import opened EntryArray
  import opened UpdateProtocol
  import opened DiskImage
  import opened GptInstance
  import opened GoodDisks
  import opened UpdateResults

  const BLOCK := 512

  function Zeros(n: nat): (z: seq<byte>)
    ensures |z| == n && forall i :: 0 <= i < n ==> z[i] == 0
  {
    seq(n, _ => 0)
  }

  // ---------- Headers ----------

  /** A header of 92 bytes for `count` entries of 128 bytes from block `lba` on, before it is sealed. */
  function Fields(lba: byte, count: byte): (h: seq<byte>)
    ensures |h| == BLOCK
  {
    SIGNATURE + Zeros(3) + [92] + Zeros(59) + [lba] + Zeros(7) + [count] + Zeros(3) + [128] + Zeros(427)
  }

  lemma FieldsRead(lba: byte, count: byte)
    ensures var h := Fields(lba, count);
      && h[..9] == SIGNATURE && HeaderSize(h) == 92 && EntrySize(h) == 128
      && ArrayLba(h) == Join8(Join4(lba, 0, 0, 0), 0) as nat && EntryCount(h) == Join4(count, 0, 0, 0) as nat
  {
    var h := Fields(lba, count);
    assert h[12] == 92 && h[13] == h[14] == h[15] == 0;
    assert h[72] == lba && h[73] == h[74] == h[75] == h[76] == h[77] == h[78] == h[79] == 0;
    assert h[80] == count && h[81] == h[82] == h[83] == 0 && h[84] == 128 && h[85] == h[86] == h[87] == 0;
    assert Join4(92, 0, 0, 0) == 92 && Join4(128, 0, 0, 0) == 128 && Join4(0, 0, 0, 0) == 0;
  }

  function Sealed(crc: Checksum, lba: byte, count: byte, e: seq<byte>): (h: seq<byte>)
    ensures |h| == BLOCK
  {
    FieldsRead(lba, count);
    WithArraySum(crc, Fields(lba, count), crc(e))
  }

  /** What is read from a sealed header for n entries from block k on. */
  ghost predicate ReadsAs(s: Setup, h: seq<byte>, k: nat, n: nat, e: seq<byte>) {
    s.info(h) == Info(true, true, Ok, s.crc(e), 128, n * 128, k, BLOCK, 92)
  }

  lemma SealedReads(s: Setup, env: Env, lba: byte, count: byte, e: seq<byte>, k: nat, n: nat)
    requires Realizes(s, env)
    requires Join8(Join4(lba, 0, 0, 0), 0) as nat == k && Join4(count, 0, 0, 0) as nat == n <= 12
    ensures ReadsAs(s, Sealed(env.crc, lba, count, e), k, n, e)
  {
    FieldsRead(lba, count);
    FieldsInfo(env.crc, Fields(lba, count), k, n);
    StoredInfo(env.crc, Fields(lba, count), env.crc(e));
    assert s.info(Sealed(env.crc, lba, count, e)) == GptInfo(env.crc, Sealed(env.crc, lba, count, e));
  }

  lemma FieldsInfo(crc: Checksum, h: seq<byte>, k: nat, n: nat)
    requires |h| == BLOCK && HeaderSize(h) == 92 && ArrayLba(h) == k && EntryCount(h) == n <= 12 && EntrySize(h) == 128
    ensures GptInfo(crc, h).(state := Ok, sum := 0) == Info(true, true, Ok, 0, 128, n * 128, k, BLOCK, 92)
  {
    EntryPosIsProduct(n, 128);
  }

  // ---------- Two entries of one name ----------

  /** "abl" and "ablbak" in UTF-16, in entries of 128 bytes, and two unused entries. */
  function AblEntry(): (e: seq<byte>)
    ensures |e| == 128
  {
    Zeros(56) + [0x61, 0, 0x62, 0, 0x6c, 0] + Zeros(66)
  }

  function AblBakEntry(): (e: seq<byte>)
    ensures |e| == 128
  {
    Zeros(56) + [0x61, 0, 0x62, 0, 0x6c, 0, 0x62, 0, 0x61, 0, 0x6b, 0] + Zeros(60)
  }

  function GoodArray(): (e: seq<byte>)
    ensures |e| == BLOCK
  {
    AblEntry() + AblBakEntry() + Zeros(256)
  }

  lemma AblMatches()
    ensures ValidName("abl") && Matches("abl", AblEntry()) && Matches("abl", AblBakEntry())
  {
    var e, f := AblEntry(), AblBakEntry();
    assert e[56] == f[56] == 0x61 && e[58] == f[58] == 0x62 && e[60] == f[60] == 0x6c;
    assert e[62] == 0 && f[62] == 0x62 && f[64] == 0x61 && f[66] == 0x6b && f[68] == 0;
  }

  lemma GoodEntries()
    ensures var es := EntriesOf(GoodArray(), 128);
      |es| == 4 && es[0] == AblEntry() && es[1] == AblBakEntry()
  {
    EntryPosIsProduct(4, 128);
    EntryPosIsProduct(1, 128);
    EntryAt(GoodArray(), 128, 4, 0);
    EntryAt(GoodArray(), 128, 4, 1);
  }

  lemma GoodArraySwaps(s: Setup, env: Env)
    requires Realizes(s, env) && "abl" in env.names
    ensures s.swap(GoodArray(), 128).SwappedTo?
  {
    GoodEntries();
    AblMatches();
    AblPair(EntriesOf(GoodArray(), 128), env.ufs);
    assert s.swap(GoodArray(), 128) == GptSwap(env.names, env.ufs, GoodArray(), 128);
  }

  lemma AblPair(es: seq<Entry>, ufs: bool)
    requires Entries(es) && |es| == 4 && ValidName("abl") && Matches("abl", es[0]) && Matches("abl", es[1])
    ensures PairOf(es, "abl", ufs).Pair?
  {
    assert "abl"[0] != PTN_XBL[0];
    PairIff(es, "abl", ufs);
  }

  // ---------- The disk ----------

  /** Five blocks: an unused one, the primary header, both arrays, the secondary header. */
  function GoodImage(h1: seq<byte>, h2: seq<byte>): (d: seq<byte>)
    requires |h1| == |h2| == BLOCK
    ensures |d| == 5 * BLOCK
  {
    Zeros(BLOCK) + h1 + GoodArray() + GoodArray() + h2
  }

  lemma GoodImageIsGood(s: Setup, d: seq<byte>, h1: seq<byte>, h2: seq<byte>, e: seq<byte>)
    requires |h1| == |h2| == |e| == BLOCK && d == Zeros(BLOCK) + h1 + e + e + h2
    requires ReadsAs(s, h1, 2, 4, e) && ReadsAs(s, h2, 3, 4, e)
    ensures GoodDisk(s, BLOCK, d) && Extract(LayoutOf(s, BLOCK, d), d) == Tables(h1, h2, e, e)
    ensures Settled(s, Tables(h1, h2, e, e))
  {
    assert HeaderOf(BLOCK, d, Primary) == h1 && HeaderOf(BLOCK, d, Secondary) == h2;
    assert d[1024..1536] == e && d[1536..2048] == e;
  }

  lemma GoodParts(env: Env) returns (s: Setup, h1: seq<byte>, h2: seq<byte>)
    requires "abl" in env.names
    ensures s == SetupOf(env) && Lawful(s) && |h1| == |h2| == BLOCK
    ensures ReadsAs(s, h1, 2, 4, GoodArray()) && ReadsAs(s, h2, 3, 4, GoodArray())
              && s.swap(GoodArray(), 128).SwappedTo?
  {
    s := SetupOf(env);
    SetupRealizes(env);
    h1, h2 := Sealed(env.crc, 2, 4, GoodArray()), Sealed(env.crc, 3, 4, GoodArray());
    SealedReads(s, env, 2, 4, GoodArray(), 2, 4);
    SealedReads(s, env, 3, 4, GoodArray(), 3, 4);
    GoodArraySwaps(s, env);
  }

  /** Five blocks, a good disk with equal arrays and a pair to swap. */
  ghost predicate IsGoodExample(s: Setup, d: seq<byte>) {
    && |d| == 5 * BLOCK && GoodDisk(s, BLOCK, d)
    && var t := Extract(LayoutOf(s, BLOCK, d), d);
      Settled(s, t) && s.swap(t.e1, s.info(t.h1).size).SwappedTo?
  }

  lemma GoodPartsFit(s: Setup, h1: seq<byte>, h2: seq<byte>, d: seq<byte>)
    requires |h1| == |h2| == BLOCK && d == GoodImage(h1, h2) && s.swap(GoodArray(), 128).SwappedTo?
    requires ReadsAs(s, h1, 2, 4, GoodArray()) && ReadsAs(s, h2, 3, 4, GoodArray())
    ensures IsGoodExample(s, d)
  {
    GoodImageIsGood(s, d, h1, h2, GoodArray());
  }

  lemma GoodIsDisk(env: Env) returns (s: Setup, d: seq<byte>)
    requires "abl" in env.names
    ensures s == SetupOf(env) && Lawful(s) && IsGoodExample(s, d)
  {
    var h1, h2;
    s, h1, h2 := GoodParts(env);
    d := GoodImage(h1, h2);
    GoodPartsFit(s, h1, h2, d);
  }

  /** For every checksum and every list that has "abl" there is a good disk of five blocks with equal
      arrays and a pair to swap: a whole update changes it and gives it back. */
  lemma GoodExample(env: Env) returns (s: Setup, d: seq<byte>, d1: seq<byte>, d2: seq<byte>)
    requires "abl" in env.names
    ensures s == SetupOf(env) && IsGoodExample(s, d)
    ensures d1 == Completed(s, BLOCK, d, Main) && d2 == Completed(s, BLOCK, d1, Backup)
    ensures d1 != d && d2 != d1 && Completed(s, BLOCK, d2, Finalize) == d
  {
    s, d := GoodIsDisk(env);
    d1 := Completed(s, BLOCK, d, Main);
    d2 := Completed(s, BLOCK, d1, Backup);
    WholeImageCycle(s, BLOCK, d);
  }
}
