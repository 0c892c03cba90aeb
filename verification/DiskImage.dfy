/** Where the two partition tables lie on a disk, as bytes: every byte outside the four regions
    is untouched by writing tables. */
module DiskImage {
  import opened Bytes
  import opened GptHeader
  import opened UpdateProtocol

  /** Block size, disk size, start of the two entries arrays, and their common length. */
  datatype Layout = Layout(block: nat, total: nat, prim: nat, sec: nat, len: nat)

  ghost predicate Apart(a: nat, alen: nat, b: nat, blen: nat) {
    a + alen <= b || b + blen <= a
  }

  /** The four regions lie on the disk and do not overlap; the primary header is block 1, the
      secondary header the last block. */
  ghost predicate Regions(l: Layout) {
    && l.block >= HEADER_FIELDS_END && 3 * l.block <= l.total
    && l.prim + l.len <= l.total && l.sec + l.len <= l.total
    && Apart(l.prim, l.len, l.block, l.block) && Apart(l.prim, l.len, l.total - l.block, l.block)
    && Apart(l.sec, l.len, l.block, l.block) && Apart(l.sec, l.len, l.total - l.block, l.block)
    && Apart(l.prim, l.len, l.sec, l.len)
  }

  ghost predicate Fits(l: Layout, t: Tables) {
    |t.h1| == |t.h2| == l.block && |t.e1| == |t.e2| == l.len
  }

  /** The tables that an image holds. */
  ghost function Extract(l: Layout, d: seq<byte>): (t: Tables)
    requires Regions(l) && |d| == l.total
    ensures Fits(l, t)
  {
    Tables(d[l.block..l.block + l.block], d[l.total - l.block..l.total],
           d[l.prim..l.prim + l.len], d[l.sec..l.sec + l.len])
  }

  /** Byte i of the image base with the tables t written over it. */
  ghost function ByteAt(l: Layout, base: seq<byte>, t: Tables, i: nat): byte
    requires Regions(l) && |base| == l.total && Fits(l, t) && i < l.total
  {
    if l.block <= i < 2 * l.block then t.h1[i - l.block]
    else if l.total - l.block <= i then t.h2[i - (l.total - l.block)]
    else if l.prim <= i < l.prim + l.len then t.e1[i - l.prim]
    else if l.sec <= i < l.sec + l.len then t.e2[i - l.sec]
    else base[i]
  }

  /** d is the image base with the tables t written over it. */
  ghost predicate Shows(l: Layout, base: seq<byte>, t: Tables, d: seq<byte>)
    requires Regions(l) && Fits(l, t)
  {
    && |base| == |d| == l.total
    && forall i: nat {:trigger ByteAt(l, base, t, i)} :: i < l.total ==> d[i] == ByteAt(l, base, t, i)
  }

  lemma ShowsHeaders(l: Layout, base: seq<byte>, t: Tables, d: seq<byte>)
    requires Regions(l) && Fits(l, t) && Shows(l, base, t, d)
    ensures d[l.block..l.block + l.block] == t.h1 && d[l.total - l.block..l.total] == t.h2
  {
    forall i: nat | i < l.block ensures d[l.block + i] == t.h1[i] {
      assert ByteAt(l, base, t, l.block + i) == t.h1[i];
    }
    forall i: nat | i < l.block ensures d[l.total - l.block + i] == t.h2[i] {
      assert ByteAt(l, base, t, l.total - l.block + i) == t.h2[i];
    }
  }

  lemma ShowsArrays(l: Layout, base: seq<byte>, t: Tables, d: seq<byte>)
    requires Regions(l) && Fits(l, t) && Shows(l, base, t, d)
    ensures d[l.prim..l.prim + l.len] == t.e1 && d[l.sec..l.sec + l.len] == t.e2
  {
    forall i: nat | i < l.len ensures d[l.prim + i] == t.e1[i] {
      assert ByteAt(l, base, t, l.prim + i) == t.e1[i];
    }
    forall i: nat | i < l.len ensures d[l.sec + i] == t.e2[i] {
      assert ByteAt(l, base, t, l.sec + i) == t.e2[i];
    }
  }

  /** Tables written are tables read. */
  lemma ShowsTables(l: Layout, base: seq<byte>, t: Tables, d: seq<byte>)
    requires Regions(l) && Fits(l, t) && Shows(l, base, t, d)
    ensures Extract(l, d) == t
  {
    ShowsHeaders(l, base, t, d);
    ShowsArrays(l, base, t, d);
  }

  /** An image shows its own tables over itself. */
  lemma ShowsItself(l: Layout, d: seq<byte>)
    requires Regions(l) && |d| == l.total
    ensures Shows(l, d, Extract(l, d), d)
  {
  }

  /** An image is told by its tables and the base. */
  lemma Determined(l: Layout, base: seq<byte>, t: Tables, d: seq<byte>, d': seq<byte>)
    requires Regions(l) && Fits(l, t) && Shows(l, base, t, d) && Shows(l, base, t, d')
    ensures d == d'
  {
    forall i: nat | i < l.total ensures d[i] == d'[i] {
      assert d[i] == ByteAt(l, base, t, i);
    }
  }

  // ---------- Where the headers of an image say that its tables lie ----------

  datatype Instance = Primary | Secondary

  /** Block 1, or the last block. */
  function HeaderOffset(block: nat, total: nat, inst: Instance): (offset: nat)
    requires block <= total
  {
    if inst == Primary then block else total - block
  }

  function HeaderOf(block: nat, d: seq<byte>, inst: Instance): (h: seq<byte>)
    requires 2 * block <= |d|
    ensures |h| == block
  {
    d[HeaderOffset(block, |d|, inst)..HeaderOffset(block, |d|, inst) + block]
  }

  /** A block number as a byte offset, in the 64-bit arithmetic of the code. */
  function Offset(lba: nat, block: nat): nat {
    (lba * block) % 0x1_0000_0000_0000_0000
  }

  /** It wraps round at 64 bits: what is lost is a multiple of 2 to the 64th. */
  lemma OffsetWraps(lba: nat, block: nat, laps: nat)
    requires laps * 0x1_0000_0000_0000_0000 <= lba * block < (laps + 1) * 0x1_0000_0000_0000_0000
    ensures Offset(lba, block) == lba * block - laps * 0x1_0000_0000_0000_0000
  {
  }

  ghost function LayoutOf(s: Setup, block: nat, d: seq<byte>): Layout
    requires 2 * block <= |d|
  {
    var p, q := s.info(HeaderOf(block, d, Primary)), s.info(HeaderOf(block, d, Secondary));
    Layout(block, |d|, Offset(p.lba, block), Offset(q.lba, block), p.bytes)
  }

  /** The tables are laid out as their own headers say. */
  ghost predicate Mounted(s: Setup, l: Layout, t: Tables) {
    && WellFormed(s, t) && Regions(l) && Fits(l, t)
    && Offset(s.info(t.h1).lba, l.block) == l.prim && Offset(s.info(t.h2).lba, l.block) == l.sec
  }

  /** An image whose two tables are readable, agree in size, and do not overlap. */
  ghost predicate GoodDisk(s: Setup, block: nat, d: seq<byte>) {
    && 2 * block <= |d|
    && var l := LayoutOf(s, block, d);
      Regions(l) && Mounted(s, l, Extract(l, d))
  }

  lemma SameShapeMounted(s: Setup, l: Layout, t: Tables, x: Tables)
    requires Mounted(s, l, t) && SameShape(s, t, x)
    ensures Mounted(s, l, x)
  {
  }

  /** The tables that an image shows are found where they were. */
  lemma StillGood(s: Setup, l: Layout, base: seq<byte>, x: Tables, d: seq<byte>)
    requires Mounted(s, l, x) && Shows(l, base, x, d)
    ensures LayoutOf(s, l.block, d) == l && Extract(l, d) == x && GoodDisk(s, l.block, d)
  {
    ShowsHeaders(l, base, x, d);
    ShowsTables(l, base, x, d);
  }

  lemma ShowsThrough(l: Layout, base: seq<byte>, t: Tables, d: seq<byte>, x: Tables, d': seq<byte>)
    requires Regions(l) && Fits(l, t) && Fits(l, x) && Shows(l, base, t, d) && Shows(l, d, x, d')
    ensures Shows(l, base, x, d')
  {
    forall i: nat | i < l.total ensures d'[i] == ByteAt(l, base, x, i) {
      assert d'[i] == ByteAt(l, d, x, i) && d[i] == ByteAt(l, base, t, i);
    }
  }

  // ---------- One write at a time ----------

  lemma WritePrimaryHeader(l: Layout, base: seq<byte>, t: Tables, d: seq<byte>, h: seq<byte>)
    requires Regions(l) && Fits(l, t) && Shows(l, base, t, d) && |h| == l.block
    ensures Shows(l, base, t.(h1 := h), Splice(d, l.block, h))
  {
    forall i: nat | i < l.total ensures Splice(d, l.block, h)[i] == ByteAt(l, base, t.(h1 := h), i) {
      assert d[i] == ByteAt(l, base, t, i);
    }
  }

  lemma WriteSecondaryHeader(l: Layout, base: seq<byte>, t: Tables, d: seq<byte>, h: seq<byte>)
    requires Regions(l) && Fits(l, t) && Shows(l, base, t, d) && |h| == l.block
    ensures Shows(l, base, t.(h2 := h), Splice(d, l.total - l.block, h))
  {
    forall i: nat | i < l.total ensures Splice(d, l.total - l.block, h)[i] == ByteAt(l, base, t.(h2 := h), i) {
      assert d[i] == ByteAt(l, base, t, i);
    }
  }

  /** A write of the secondary array that stopped after k bytes. */
  lemma WriteSecondaryArray(l: Layout, base: seq<byte>, t: Tables, d: seq<byte>, e: seq<byte>, k: nat)
    requires Regions(l) && Fits(l, t) && Shows(l, base, t, d) && |e| == l.len && k <= l.len
    ensures Shows(l, base, TornAt(t, t.(e2 := e), k), Splice(d, l.sec, e[..k]))
  {
    var x := TornAt(t, t.(e2 := e), k);
    forall i: nat | i < l.total ensures Splice(d, l.sec, e[..k])[i] == ByteAt(l, base, x, i) {
      assert d[i] == ByteAt(l, base, t, i);
    }
  }

  function TornPrimary(t: Tables, e: seq<byte>, k: nat): Tables
    requires k <= |e| == |t.e1|
  {
    t.(e1 := e[..k] + t.e1[k..])
  }

  lemma WritePrimaryArray(l: Layout, base: seq<byte>, t: Tables, d: seq<byte>, e: seq<byte>, k: nat)
    requires Regions(l) && Fits(l, t) && Shows(l, base, t, d) && |e| == l.len && k <= l.len
    ensures Shows(l, base, TornPrimary(t, e, k), Splice(d, l.prim, e[..k]))
  {
    var x := TornPrimary(t, e, k);
    forall i: nat | i < l.total ensures Splice(d, l.prim, e[..k])[i] == ByteAt(l, base, x, i) {
      assert d[i] == ByteAt(l, base, t, i);
    }
  }
}
