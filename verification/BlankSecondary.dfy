/** The code believes what a header says about its array.  On a disk whose last block is blank, CRC-32
    finds nothing wrong with the checksum of the secondary header, FINALIZE is due, and the primary
    array is written to the start of the disk. */
module BlankSecondary {
  import opened Bytes
  import opened GptHeader
  import opened UpdateProtocol
  import opened DiskImage
  import opened GptInstance
  import opened ImagePlans
  import opened GoodDisks
  import opened UpdateResults
  import opened ExampleDisks
  import Crc32

  /** The checksum of no bytes is zero, as for CRC-32. */
  lemma EmptySum()
    ensures Crc0()([]) == 0
  {
    assert Crc32.Bits([]) == [];
  }

  /** A blank block is a header whose checksum is right and whose signature is bad. */
  lemma BlankHeader(s: Setup, env: Env, block: nat)
    requires Realizes(s, env) && env.crc([]) == 0 && HEADER_FIELDS_END <= block
    ensures BlankIsRead(s, block)
  {
    var h := Zeros(block);
    assert Get4(h, HEADER_SIZE_OFFSET) == 0 && Get4(h, HEADER_CRC_OFFSET) == 0 && Get4(h, PENTRY_SIZE_OFFSET) == 0;
    assert Get8(h, PENTRIES_OFFSET) == 0;
    assert Cleared(h)[..0] == [];
    assert h[..9][0] == 0 && SIGNATURE[0] != 0;
    assert s.info(h) == GptInfo(env.crc, h);
  }

  ghost predicate BlankIsRead(s: Setup, block: nat) {
    var q := s.info(Zeros(block));
    q.readable && !q.valid && q.state == BadSignature && q.lba == 0
  }

  /** A usable primary table before a blank last block, with room for its array elsewhere. */
  ghost predicate BeforeBlank(s: Setup, block: nat, d: seq<byte>) {
    && HEADER_FIELDS_END <= block && 3 * block <= |d| && HeaderOf(block, d, Secondary) == Zeros(block)
    && var l, p := LayoutOf(s, block, d), s.info(HeaderOf(block, d, Primary));
      && l.prim + l.len <= |d| - block && p.readable && p.state == Ok && s.crc(d[l.prim..l.prim + l.len]) == p.sum
  }

  /** FINALIZE is due on such a disk, and writes the primary array to its start: the three writes. */
  lemma BlankSecondaryIsDue(s: Setup, block: nat, d: seq<byte>) returns (w: Write, v: Write, m: Write)
    requires Lawful(s) && BlankIsRead(s, block) && BeforeBlank(s, block, d)
    ensures var l := LayoutOf(s, block, d);
      && v == ArrayWrite(0, d[l.prim..l.prim + l.len])
      && w.at == m.at == |d| - block && |w.bytes| == |m.bytes| == block
      && SelectedBy(s, block, d) == Next(Finalize) && Workable(s, block, d, Finalize)
      && ImagePrepare(s, block, d, Finalize) == Writing([w, v] + [m])
      && AllOnDevice(d, [w, v] + [m])
  {
    w, v := BlankChain(s, block, d);
    var y := Landed(Landed(d, w), v);
    TwoLanded(d, w, v);
    assert HeaderOf(block, y, Secondary) == w.bytes;
    m := Marking(s, block, y, Secondary, Ok);
    assert s.info(m.bytes) == s.info(w.bytes).(state := Ok);
  }

  /** The first bytes of the disk, the primary header among them, are overwritten with the array, and
      so is as much of the primary array as the copy reaches into.  What lies behind the copy stays,
      up to the last block. */
  lemma BlankSecondaryOverwrites(s: Setup, block: nat, d: seq<byte>, e: seq<byte>, x: seq<byte>)
    requires Lawful(s) && BlankIsRead(s, block) && BeforeBlank(s, block, d)
    requires IsPrimaryArray(s, block, d, e) && x == Completed(s, block, d, Finalize)
    ensures |e| <= |d| - block && x[..|e|] == e
    ensures forall i {:trigger x[i]} :: |e| <= i < |d| - block ==> x[i] == d[i]
  {
    var w, v, m := BlankCompletion(s, block, d, e, x);
    BytesMoved(d, x, w, v, m, e, |e|, |d| - block);
  }

  ghost predicate IsPrimaryArray(s: Setup, block: nat, d: seq<byte>, e: seq<byte>)
    requires 2 * block <= |d|
  {
    var l := LayoutOf(s, block, d);
    l.prim + l.len <= |d| && e == d[l.prim..l.prim + l.len]
  }

  lemma BlankCompletion(s: Setup, block: nat, d: seq<byte>, e: seq<byte>, x: seq<byte>)
    returns (w: Write, v: Write, m: Write)
    requires Lawful(s) && BlankIsRead(s, block) && BeforeBlank(s, block, d)
    requires IsPrimaryArray(s, block, d, e) && x == Completed(s, block, d, Finalize)
    ensures v == ArrayWrite(0, e) && |e| <= |d| - block && w.at == m.at == |d| - block
    ensures |w.bytes| == |m.bytes| == block && x == AllLanded(d, [w, v] + [m])
  {
    w, v, m := BlankSecondaryIsDue(s, block, d);
  }

  lemma BlankChain(s: Setup, block: nat, d: seq<byte>) returns (w: Write, v: Write)
    requires Lawful(s) && BlankIsRead(s, block) && BeforeBlank(s, block, d)
    ensures var l := LayoutOf(s, block, d);
      && ImageChain(s, block, d, false) == Writing([w, v])
      && v == ArrayWrite(0, d[l.prim..l.prim + l.len]) && w.at == |d| - block && |w.bytes| == block && w.HeaderWrite?
      && s.info(w.bytes).readable
  {
    var l, h2 := LayoutOf(s, block, d), HeaderOf(block, d, Secondary);
    var e := d[l.prim..l.prim + l.len];
    w, v := HeaderWrite(|d| - block, s.store(h2, s.crc(e))), ArrayWrite(0, e);
    assert s.info(w.bytes) == s.info(h2).(sum := s.crc(e));
  }

  lemma TwoLanded(d: seq<byte>, w: Write, v: Write)
    ensures AllLanded(d, [w, v]) == Landed(Landed(d, w), v)
  {
    var y := Landed(d, w);
    assert [w, v][1..] == [v] && [v][1..] == [];
    assert AllLanded(y, [v]) == AllLanded(Landed(y, v), []);
  }

  lemma ThreeLanded(d: seq<byte>, w: Write, v: Write, m: Write)
    ensures AllLanded(d, [w, v] + [m]) == Landed(Landed(Landed(d, w), v), m)
  {
    var y := AllLanded(d, [w, v]);
    TwoLanded(d, w, v);
    LandedAppend(d, [w, v], [m]);
    assert [m][1..] == [] && AllLanded(y, [m]) == AllLanded(Landed(y, m), []);
  }

  lemma BytesMoved(d: seq<byte>, x: seq<byte>, w: Write, v: Write, m: Write, e: seq<byte>, n: nat, last: nat)
    requires w.at == m.at == last && last + |w.bytes| == last + |m.bytes| == |d|
    requires v == ArrayWrite(0, e) && |e| == n <= last && x == AllLanded(d, [w, v] + [m])
    ensures |x| == |d| && x[..n] == e && forall i {:trigger x[i]} :: n <= i < last ==> x[i] == d[i]
  {
    ThreeLanded(d, w, v, m);
    var d1 := Landed(d, w);
    var d2 := Landed(d1, v);
    Untouched(d, w, n, last);
    Untouched(d1, v, n, last);
    Untouched(d2, m, n, last);
    Untouched(d2, m, 0, n);
    assert d2[..n] == e;
    forall i | n <= i < last ensures x[i] == d[i] {
      assert x[i] == x[n..last][i - n] == d[n..last][i - n];
    }
  }

  lemma Untouched(d: seq<byte>, w: Write, a: nat, b: nat)
    requires a <= b <= |d| && Apart(a, b - a, w.at, |w.bytes|)
    ensures Landed(d, w)[a..b] == d[a..b]
  {
  }

  // ---------- One such disk ----------

  const EXAMPLE_BYTES := 1536

  /** Twelve entries of 128 bytes, three blocks: one marked byte, the rest unused. */
  function ExampleArray(): (e: seq<byte>)
    ensures |e| == EXAMPLE_BYTES && e[0] == 1 && forall i :: 0 < i < |e| ==> e[i] == 0
  {
    [1] + Zeros(EXAMPLE_BYTES - 1)
  }

  /** Six blocks: an unused one, the primary header h, its array, the blank one. */
  function ExampleDisk(h: seq<byte>): (d: seq<byte>)
    requires |h| == BLOCK
    ensures |d| == 6 * BLOCK
  {
    Zeros(BLOCK) + h + ExampleArray() + Zeros(BLOCK)
  }

  lemma ExampleLayout(s: Setup, d: seq<byte>, h: seq<byte>)
    requires d == Zeros(BLOCK) + h + ExampleArray() + Zeros(BLOCK) && |h| == BLOCK
    requires BlankIsRead(s, BLOCK) && ReadsAs(s, h, 2, 12, ExampleArray())
    ensures BeforeBlank(s, BLOCK, d) && s.info(HeaderOf(BLOCK, d, Primary)).valid
    ensures IsPrimaryArray(s, BLOCK, d, ExampleArray()) && d[1024..1024 + EXAMPLE_BYTES] == ExampleArray()
    ensures !PrimarySpared(s, BLOCK, d, Finalize)
  {
    assert HeaderOf(BLOCK, d, Primary) == h && HeaderOf(BLOCK, d, Secondary) == Zeros(BLOCK);
    assert d[1024..1024 + EXAMPLE_BYTES] == ExampleArray();
  }

  /** For CRC-32 the GPT format has a header h as the example needs it. */
  lemma ExampleExists(env: Env) returns (s: Setup, h: seq<byte>)
    requires env.crc == Crc0()
    ensures s == SetupOf(env) && Realizes(s, env) && Lawful(s) && |h| == BLOCK
    ensures BlankIsRead(s, BLOCK) && ReadsAs(s, h, 2, 12, ExampleArray())
  {
    s := SetupOf(env);
    SetupRealizes(env);
    h := Sealed(env.crc, 2, 12, ExampleArray());
    EmptySum();
    BlankHeader(s, env, BLOCK);
    SealedReads(s, env, 2, 12, ExampleArray(), 2, 12);
  }

  /** Six blocks, usable primary table with a marked byte, blank last block. */
  ghost predicate IsExample(s: Setup, d: seq<byte>) {
    && |d| == 6 * BLOCK && BeforeBlank(s, BLOCK, d) && IsPrimaryArray(s, BLOCK, d, ExampleArray())
    && d[1024..1024 + EXAMPLE_BYTES] == ExampleArray() && !PrimarySpared(s, BLOCK, d, Finalize)
  }

  lemma ExampleIsDisk(env: Env) returns (s: Setup, d: seq<byte>)
    requires env.crc == Crc0()
    ensures s == SetupOf(env) && Lawful(s) && BlankIsRead(s, BLOCK) && IsExample(s, d)
  {
    var h;
    s, h := ExampleExists(env);
    d := ExampleDisk(h);
    ExampleLayout(s, d, h);
  }

  /** For CRC-32 there is a disk of six blocks on which FINALIZE is due and which it damages: when it
      has succeeded, the primary header is blank, and the primary array has lost its marked byte. */
  lemma BlankSecondaryExample(env: Env) returns (s: Setup, d: seq<byte>, x: seq<byte>)
    requires env.crc == Crc0()
    ensures s == SetupOf(env) && IsExample(s, d) && x == Completed(s, BLOCK, d, Finalize)
    ensures x[BLOCK..BLOCK + BLOCK] == Zeros(BLOCK) && x[1024..1024 + EXAMPLE_BYTES] != ExampleArray()
  {
    s, d := ExampleIsDisk(env);
    x := Completed(s, BLOCK, d, Finalize);
    ExampleOverwritten(s, d, x);
  }

  lemma ExampleOverwritten(s: Setup, d: seq<byte>, x: seq<byte>)
    requires Lawful(s) && BlankIsRead(s, BLOCK) && BeforeBlank(s, BLOCK, d)
    requires IsPrimaryArray(s, BLOCK, d, ExampleArray()) && x == Completed(s, BLOCK, d, Finalize)
    requires |d| >= 1024 + EXAMPLE_BYTES
    ensures x[BLOCK..BLOCK + BLOCK] == Zeros(BLOCK)
    ensures x[1024..1024 + EXAMPLE_BYTES] != ExampleArray()
  {
    BlankSecondaryOverwrites(s, BLOCK, d, ExampleArray(), x);
    ExampleBytes(x);
  }

  lemma ExampleBytes(x: seq<byte>)
    requires |x| >= 1024 + EXAMPLE_BYTES && x[..EXAMPLE_BYTES] == ExampleArray()
    ensures x[BLOCK..BLOCK + BLOCK] == Zeros(BLOCK)
    ensures x[1024..1024 + EXAMPLE_BYTES] != ExampleArray()
  {
    var e := ExampleArray();
    forall i | 0 <= i < EXAMPLE_BYTES ensures x[i] == e[i] {
      assert x[i] == x[..EXAMPLE_BYTES][i];
    }
    assert x[1024..1024 + EXAMPLE_BYTES][0] == x[1024] == e[1024] == 0;
  }
}
