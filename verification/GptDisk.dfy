/** The gpt_disk handle: load a partition table, edit its entries in memory, recompute the
    checksums, commit.  Both halves of the handle are read from the primary table, and only the
    primary table is written. */
module GptDisk {
  import opened Bytes
  import opened GptHeader
  import opened UpdateProtocol
  import opened DiskImage
  import opened GptInstance
  import opened ImagePlans
  import opened GoodDisks
  import opened BlockDevice

  /** struct gpt_disk; `initialized` stands for the magic value of is_initialized. */
  class Disk {
    var hdr: array<byte>
    var hdrCrc: word
    var hdrBak: array<byte>
    var hdrBakCrc: word
    var pentryArr: array<byte>
    var pentryArrBak: array<byte>
    var pentryArrSize: nat
    var pentrySize: nat
    var pentryArrCrc: word
    var pentryArrBakCrc: word
    var blockSize: nat
    var initialized: bool

    /** gpt_disk_alloc: all zero. */
    constructor ()
      ensures !initialized
    {
      hdr := new byte[0];
      hdrBak := new byte[0];
      pentryArr := new byte[0];
      pentryArrBak := new byte[0];
      hdrCrc, hdrBakCrc, pentryArrCrc, pentryArrBakCrc := 0, 0, 0, 0;
      pentryArrSize, pentrySize, blockSize, initialized := 0, 0, 0, false;
    }

    /** The four buffers are different, and none is the storage of the device. */
    ghost predicate Separate(dev: Device)
      reads this
    {
      && hdr != hdrBak && hdr != pentryArr && hdr != pentryArrBak && hdrBak != pentryArr
      && hdrBak != pentryArrBak && pentryArr != pentryArrBak
      && hdr != dev.data && hdrBak != dev.data && pentryArr != dev.data && pentryArrBak != dev.data
    }

    /** The handle holds the header h and the array e, each of them twice. */
    ghost predicate Loaded(h: seq<byte>, e: seq<byte>)
      reads this, hdr, hdrBak, pentryArr, pentryArrBak
    {
      && initialized && hdr[..] == h && hdrBak[..] == h && pentryArr[..] == e && pentryArrBak[..] == e
      && pentryArrSize == |e|
    }

    /** gpt_disk_get_disk_info.  The checksum taken of the header on loading covers its own,
        uncleared, checksum field. */
    method GetDiskInfo(dev: Device, env: Env, ghost s: Setup, ghost d: seq<byte>, ghost h: seq<byte>) returns (r: int)
      requires Realizes(s, env) && HoldsBlock(dev, Primary, h) && s.info(h).readable && dev.data[..] == d
      modifies this, dev`faults
      ensures if r == 0 then dev.faults == old(dev.faults) else r == -1 && dev.faults > old(dev.faults)
      ensures r == 0 ==> Loaded(h, pentryArr[..]) && ArrayOf(s, dev.blockSize, d, h, pentryArr[..]) && Separate(dev)
      ensures r == 0 ==> fresh(hdr) && fresh(hdrBak) && fresh(pentryArr) && fresh(pentryArrBak)
      ensures r == 0 ==> pentrySize == s.info(h).size && pentryArrCrc == pentryArrBakCrc == s.info(h).sum
      ensures r == 0 ==> s.info(h).covered <= |h| && hdrCrc == hdrBakCrc == env.crc(h[..s.info(h).covered])
      ensures r == 0 ==> blockSize == dev.blockSize
    {
      CoveredSize(s, env, h);
      r := GetHeaders(dev, env, h, s.info(h).covered);
      if r != 0 {
        return;
      }
      var ok := dev.Try();
      if !ok {
        return -1;
      }
      r := GetArrays(dev, env, s, d, h);
      if r == 0 {
        blockSize := dev.blockSize;
        initialized := true;
      }
    }

    /** Read the primary header twice. */
    method GetHeaders(dev: Device, env: Env, ghost h: seq<byte>, ghost n: nat) returns (r: int)
      requires HoldsBlock(dev, Primary, h) && Header(h) && n == HeaderSize(h)
      modifies this`hdr, this`hdrCrc, this`hdrBak, this`hdrBakCrc, dev`faults
      ensures if r == 0 then dev.faults == old(dev.faults) else r == -1 && dev.faults > old(dev.faults)
      ensures r == 0 ==> hdr[..] == h && hdrBak[..] == h && hdr != hdrBak && fresh(hdr) && fresh(hdrBak)
      ensures r == 0 ==> hdrCrc == hdrBakCrc == env.crc(h[..n])
    {
      r, hdr := GetHeader(dev, h);
      if r != 0 {
        return;
      }
      var size := HeaderSize(hdr[..]);
      hdrCrc := SumOfBytes(hdr, size, env, h);
      r, hdrBak := GetHeader(dev, h);
      if r == 0 {
        hdrBakCrc := SumOfBytes(hdrBak, size, env, h);
      }
    }

    /** Read the primary array twice, as each copy of the header says. */
    method GetArrays(dev: Device, env: Env, ghost s: Setup, ghost d: seq<byte>, ghost h: seq<byte>) returns (r: int)
      requires Realizes(s, env) && s.info(h).readable && dev.data[..] == d && hdr[..] == h && hdrBak[..] == h
      modifies this`pentryArr, this`pentryArrBak, this`pentrySize, this`pentryArrSize
      modifies this`pentryArrCrc, this`pentryArrBakCrc, dev`faults
      ensures if r == 0 then dev.faults == old(dev.faults) else r == -1 && dev.faults > old(dev.faults)
      ensures r == 0 ==> ArrayOf(s, dev.blockSize, d, h, pentryArr[..]) && pentryArrBak[..] == pentryArr[..]
      ensures r == 0 ==> pentryArrSize == pentryArr.Length && pentrySize == s.info(h).size
      ensures r == 0 ==> pentryArr != pentryArrBak && fresh(pentryArr) && fresh(pentryArrBak)
      ensures r == 0 ==> pentryArrCrc == pentryArrBakCrc == s.info(h).sum
    {
      var size, sum;
      r, pentryArr, size, sum := GetArray(dev, env, hdr, s, d, h);
      if r != 0 {
        return;
      }
      pentrySize, pentryArrSize, pentryArrCrc := size, pentryArr.Length, sum;
      r, pentryArrBak, size, sum := GetArray(dev, env, hdrBak, s, d, h);
      if r == 0 {
        pentryArrBakCrc := sum;
      }
    }

    /** gpt_disk_update_crc: recompute the array checksums and seal both header copies, whatever the
        backup copy holds, over as many bytes as the primary copy says. */
    method UpdateCrc(env: Env, ghost h: seq<byte>, ghost g: seq<byte>, ghost e: seq<byte>, ghost f: seq<byte>)
      returns (r: int)
      requires hdr != hdrBak && hdr[..] == h && hdrBak[..] == g && pentryArr[..] == e && pentryArrBak[..] == f
      requires initialized ==> Header(h) && |g| >= HEADER_FIELDS_END && HeaderSize(h) <= |g|
      requires initialized ==> |e| == pentryArrSize == |f|
      requires pentryArr != hdr && pentryArr != hdrBak && pentryArrBak != hdr && pentryArrBak != hdrBak
      modifies this`hdrCrc, this`hdrBakCrc, this`pentryArrCrc, this`pentryArrBakCrc, hdr, hdrBak
      ensures r == if initialized then 0 else -1
      ensures !initialized ==> hdr[..] == h && hdrBak[..] == g
      ensures initialized ==> hdr[..] == WithArraySum(env.crc, h, env.crc(e)) && pentryArrCrc == env.crc(e)
      ensures initialized ==>
                hdrBak[..] == StoredOver(env.crc, g, env.crc(f), HeaderSize(h)) && pentryArrBakCrc == env.crc(f)
      ensures initialized ==> hdrCrc == Get4(hdr[..], 16) && hdrBakCrc == Get4(hdrBak[..], 16)
    {
      if !initialized {
        return -1;
      }
      assert pentryArr[..pentryArrSize] == e && pentryArrBak[..pentryArrSize] == f;
      pentryArrCrc := env.crc(pentryArr[..pentryArrSize]);
      pentryArrBakCrc := env.crc(pentryArrBak[..pentryArrSize]);
      hdrCrc, hdrBakCrc := ResealBoth(hdr, hdrBak, env.crc, pentryArrCrc, pentryArrBakCrc, h, g);
      r := 0;
    }

    /** gpt_disk_commit: the primary header first, then the array, to the place and as many bytes of
        it as this header says. */
    method Commit(dev: Device, ghost d: seq<byte>, ghost h: seq<byte>, ghost e: seq<byte>) returns (r: int)
      requires Sized(dev) && dev.data[..] == d && Separate(dev)
      requires hdr[..] == h && |h| == dev.blockSize && pentryArr[..] == e && ArrayBytes(h) <= |e|
      modifies dev`faults, dev.data
      ensures var ws := CommitWrites(dev.blockSize, h, e);
        if !initialized then r == -1 && dev.data[..] == d && dev.faults == old(dev.faults)
        else
          && ImageCut(d, ws, dev.data[..])
          && (if r == 0 then dev.faults == old(dev.faults) && AllOnDevice(d, ws) && dev.data[..] == AllLanded(d, ws)
              else r == -1 && dev.faults > old(dev.faults))
    {
      if !initialized {
        return -1;
      }
      var ok := dev.Try();
      if !ok {
        return -1;
      }
      var hd := hdr[..];
      var start, len := Offset(ArrayLba(hd), dev.blockSize), ArrayBytes(hd);
      r := PutTable(dev, hdr, pentryArr, start, len, d, HeaderWrite(dev.blockSize, h), ArrayWrite(start, e[..len]));
    }
  }

  /** Write the primary header, then the array. */
  method PutTable(
    dev: Device, hdr: array<byte>, arr: array<byte>, start: nat, len: nat, ghost d: seq<byte>, ghost w: Write,
    ghost v: Write)
    returns (r: int)
    requires Sized(dev) && dev.data[..] == d && hdr != dev.data && arr != dev.data && hdr.Length == dev.blockSize
    requires len <= arr.Length && w == HeaderWrite(dev.blockSize, hdr[..]) && v == ArrayWrite(start, arr[..len])
    modifies dev`faults, dev.data
    ensures ImageCut(d, [w] + [v], dev.data[..])
    ensures if r == 0 then
              dev.faults == old(dev.faults) && AllOnDevice(d, [w] + [v]) && dev.data[..] == AllLanded(d, [w] + [v])
            else r == -1 && dev.faults > old(dev.faults)
  {
    r := PutHeader(dev, Primary, hdr, d, w);
    if r == 0 {
      var ok := dev.Try();
      if ok {
        r := PutArray(dev, start, arr, len, Landed(d, w), v);
      } else {
        r := -1;
      }
      BothLanded(d, w, v);
    }
    ImageCutAppend(d, [w], [v], dev.data[..]);
  }

  /** The writes of a commit. */
  ghost function CommitWrites(block: nat, h: seq<byte>, e: seq<byte>): seq<Write>
    requires |h| >= HEADER_FIELDS_END && ArrayBytes(h) <= |e|
  {
    [HeaderWrite(block, h)] + [ArrayWrite(Offset(ArrayLba(h), block), e[..ArrayBytes(h)])]
  }

  /** The bytes e are those that the header h points to. */
  ghost predicate ArrayOf(s: Setup, block: nat, d: seq<byte>, h: seq<byte>, e: seq<byte>) {
    var at := Offset(s.info(h).lba, block);
    |e| == s.info(h).bytes && at + |e| <= |d| && e == d[at..at + |e|]
  }

  /** gpt_get_pentry_arr on the image d. */
  method GetArray(dev: Device, env: Env, hdr: array<byte>, ghost s: Setup, ghost d: seq<byte>, ghost h: seq<byte>)
    returns (r: int, arr: array<byte>, size: nat, sum: word)
    requires Realizes(s, env) && s.info(h).readable && hdr[..] == h && dev.data[..] == d
    modifies dev`faults
    ensures fresh(arr) && size == s.info(h).size && sum == s.info(h).sum
    ensures if r == 0 then dev.faults == old(dev.faults) && ArrayOf(s, dev.blockSize, d, h, arr[..])
            else r == -1 && dev.faults > old(dev.faults)
  {
    r, arr, size, sum := ReadArrayOf(dev, env, hdr, s, h);
  }

  lemma CoveredSize(s: Setup, env: Env, h: seq<byte>)
    requires Realizes(s, env) && s.info(h).readable
    ensures Header(h) && s.info(h).covered == HeaderSize(h)
  {
    ReadInfo(s, env, h);
  }

  /** crc32 of the first bytes of a buffer. */
  method SumOfBytes(buf: array<byte>, size: nat, env: Env, ghost h: seq<byte>) returns (sum: word)
    requires buf[..] == h && size <= |h|
    ensures sum == env.crc(h[..size])
  {
    assert buf[..size] == h[..size];
    sum := env.crc(buf[..size]);
  }

  /** gpt_get_header for the primary table. */
  method GetHeader(dev: Device, ghost h: seq<byte>) returns (r: int, hdr: array<byte>)
    requires HoldsBlock(dev, Primary, h)
    modifies dev`faults
    ensures fresh(hdr)
    ensures if r == 0 then dev.faults == old(dev.faults) && hdr[..] == h else r == -1 && dev.faults > old(dev.faults)
  {
    var ok := dev.Try();
    if ok {
      r, hdr := ReadHeader(dev, Primary, h);
    } else {
      r, hdr := -1, new byte[0];
    }
  }

  method SizeOf(hdr: array<byte>, ghost h: seq<byte>) returns (size: nat)
    requires hdr[..] == h && |h| >= HEADER_FIELDS_END
    ensures size == HeaderSize(h)
  {
    size := HeaderSize(hdr[..]);
  }

  /** Store an array checksum in a header buffer, seal it over n bytes, and say what the header checksum
      is. */
  method Reseal(buf: array<byte>, crc: Checksum, sum: word, n: nat, ghost h: seq<byte>) returns (headerSum: word)
    requires buf[..] == h && |h| >= HEADER_FIELDS_END && n <= |h|
    modifies buf
    ensures buf[..] == StoredOver(crc, h, sum, n) && headerSum == Get4(buf[..], 16)
  {
    PutWord(buf, PARTITION_CRC_OFFSET, sum);
    ghost var p := buf[..];
    PutWord(buf, HEADER_CRC_OFFSET, 0);
    assert buf[..n] == Cleared(p)[..n];
    headerSum := crc(buf[..n]);
    PutWord(buf, HEADER_CRC_OFFSET, headerSum);
    PutPut(p, HEADER_CRC_OFFSET, 0, headerSum);
    GetPut(p, HEADER_CRC_OFFSET, headerSum);
  }

  /** Both header copies, each with the checksum of its array, sealed over the size that the first
      one tells. */
  method ResealBoth(
    hdr: array<byte>, hdrBak: array<byte>, crc: Checksum, sum: word, sumBak: word, ghost h: seq<byte>,
    ghost g: seq<byte>)
    returns (hdrCrc: word, hdrBakCrc: word)
    requires hdr != hdrBak && hdr[..] == h && hdrBak[..] == g
    requires Header(h) && |g| >= HEADER_FIELDS_END && HeaderSize(h) <= |g|
    modifies hdr, hdrBak
    ensures hdr[..] == WithArraySum(crc, h, sum) && hdrCrc == Get4(hdr[..], 16)
    ensures hdrBak[..] == StoredOver(crc, g, sumBak, HeaderSize(h)) && hdrBakCrc == Get4(hdrBak[..], 16)
  {
    var size := SizeOf(hdr, h);
    hdrCrc := Reseal(hdr, crc, sum, size, h);
    StoredOverOwnSize(crc, h, sum);
    ghost var sealed := hdr[..];
    hdrBakCrc := Reseal(hdrBak, crc, sumBak, size, g);
    assert hdr[..] == sealed;
  }

  // ---------- Load, edit, update the checksums, commit, load again ----------

  lemma StoredHeader(s: Setup, env: Env, h: seq<byte>, c: word)
    requires Realizes(s, env) && s.info(h).readable
    ensures s.info(s.store(h, c)) == s.info(h).(sum := c, state := if Signed(h) then Ok else BadSignature)
  {
    assert s.info(h) == GptInfo(env.crc, h);
    assert s.store(h, c) == WithArraySum(env.crc, h, c);
    StoredInfo(env.crc, h, c);
    assert s.info(s.store(h, c)) == GptInfo(env.crc, s.store(h, c));
  }

  /** The tables on disk after a complete commit of the array e. */
  ghost function Committed(s: Setup, t: Tables, e: seq<byte>): Tables {
    t.(h1 := s.store(t.h1, s.crc(e)), e1 := e)
  }

  /** What is on the disk while a commit of e is under way: nothing yet, or the new header and the
      first k bytes of the array. */
  ghost predicate CommitCut(s: Setup, t: Tables, e: seq<byte>, x: Tables) {
    x == t || (|e| == |t.e1| && exists k :: 0 <= k <= |e| && x == TornPrimary(t.(h1 := s.store(t.h1, s.crc(e))), e, k))
  }

  /** Whatever bytes were in the primary header, the committed primary table is usable exactly when
      its signature is there; the secondary table is not touched. */
  lemma CommittedTable(s: Setup, env: Env, l: Layout, t: Tables, e: seq<byte>)
    requires Realizes(s, env) && Mounted(s, l, t) && |e| == l.len
    ensures var x := Committed(s, t, e);
      && Mounted(s, l, x) && SameLayout(s, x.h1, t.h1) && x.h2 == t.h2 && x.e2 == t.e2
      && s.info(x.h1).sum == s.crc(x.e1) && s.info(x.h1).state != BadCrc
      && (Usable(s, x.h1, x.e1) <==> Signed(t.h1))
  {
    StoredHeader(s, env, t.h1, s.crc(e));
    ReadInfo(s, env, t.h1);
    assert s.store(t.h1, s.crc(e)) == WithArraySum(env.crc, t.h1, s.crc(e));
  }

  /** A commit that stops leaves a mounted disk with the secondary table as it was, and a primary
      whose array is told to be incomplete unless its checksum happens to be that of e. */
  lemma StoppedCommit(s: Setup, env: Env, l: Layout, t: Tables, e: seq<byte>, x: Tables)
    requires Realizes(s, env) && Mounted(s, l, t) && |e| == l.len && CommitCut(s, t, e, x)
    ensures Mounted(s, l, x) && x.h2 == t.h2 && x.e2 == t.e2
    ensures Usable(s, x.h2, x.e2) <==> Usable(s, t.h2, t.e2)
    ensures x != t ==> (Usable(s, x.h1, x.e1) <==> Signed(t.h1) && s.crc(x.e1) == s.crc(e))
  {
    CommittedTable(s, env, l, t, e);
    StoredHeader(s, env, t.h1, s.crc(e));
  }

  /** On a good disk the writes of a commit are those of the tables. */
  lemma CommitReflects(
    s: Setup, env: Env, l: Layout, d: seq<byte>, t: Tables, h: seq<byte>, e: seq<byte>, x: seq<byte>)
    returns (y: Tables)
    requires Realizes(s, env) && Mounted(s, l, t) && Shows(l, d, t, d) && |e| == l.len == s.info(t.h1).bytes
    requires h == s.store(t.h1, s.crc(e)) && |h| == l.block && ArrayBytes(h) == l.len
              && Offset(ArrayLba(h), l.block) == l.prim
    requires ImageCut(d, CommitWrites(l.block, h, e), x)
    ensures CommitCut(s, t, e, y) && Fits(l, y) && Shows(l, d, y, x)
    ensures x == AllLanded(d, CommitWrites(l.block, h, e)) ==> Shows(l, d, Committed(s, t, e), x)
  {
    var t1 := t.(h1 := h);
    var w, v := HeaderWrite(l.block, h), ArrayWrite(l.prim, e);
    assert e[..|e|] == e && CommitWrites(l.block, h, e) == [w] + [v];
    var d1 := Landed(d, w);
    WritePrimaryHeader(l, d, t, d, h);
    WritePrimaryArray(l, d, t1, d1, e, |e|);
    assert TornPrimary(t1, e, |e|) == Committed(s, t, e);
    BothLanded(d, w, v);
    y := t;
    if x != d {
      var k := CutOfTwo(d, w, v, x);
      WritePrimaryArray(l, d, t1, d1, e, k);
      y := TornPrimary(t1, e, k);
    }
  }

  /** The header that UpdateCrc makes of the primary header of a mounted disk. */
  lemma UpdatedHeader(s: Setup, env: Env, l: Layout, t: Tables, h: seq<byte>, c: word)
    requires Realizes(s, env) && Mounted(s, l, t) && h == s.store(t.h1, c)
    ensures Header(t.h1) && h == WithArraySum(env.crc, t.h1, c)
    ensures |h| == l.block && ArrayBytes(h) == l.len && Offset(ArrayLba(h), l.block) == l.prim
  {
    StoredHeader(s, env, t.h1, c);
    ReadInfo(s, env, t.h1);
    ReadInfo(s, env, h);
    assert h == WithArraySum(env.crc, t.h1, c);
  }

  /** How far the second of two writes came. */
  lemma CutOfTwo(d: seq<byte>, w: Write, v: Write, x: seq<byte>) returns (k: nat)
    requires w.HeaderWrite? && v.ArrayWrite? && ImageCut(d, [w] + [v], x) && x != d && v.at + |v.bytes| <= |d|
    ensures k <= |v.bytes| && x == Splice(Landed(d, w), v.at, v.bytes[..k])
  {
    var d1 := Landed(d, w);
    AfterFirst(d, w, v, x);
    CutOfOne(d1, v, x);
    if x == d1 {
      k := 0;
      assert Splice(d1, v.at, v.bytes[..0]) == d1;
    } else if x == Landed(d1, v) {
      k := |v.bytes|;
      assert v.bytes[..k] == v.bytes;
    } else {
      k :| 0 <= k <= |v.bytes| && v.at + k <= |d1| && x == Splice(d1, v.at, v.bytes[..k]);
    }
  }

  lemma AfterFirst(d: seq<byte>, w: Write, v: Write, x: seq<byte>)
    requires w.HeaderWrite? && ImageCut(d, [w] + [v], x) && x != d
    ensures ImageCut(Landed(d, w), [v], x)
  {
    assert ([w] + [v])[1..] == [v];
  }

  lemma CutOfOne(d: seq<byte>, v: Write, x: seq<byte>)
    requires ImageCut(d, [v], x)
    ensures x == d || Partly(d, v, x) || (OnDevice(d, v) && x == Landed(d, v))
  {
    assert [v][1..] == [];
  }

  /** The life of a handle on a good disk: load, put any bytes in the entries, update the checksums,
      commit.  A second handle then loads exactly what was committed. */
  method EditTable(
    dev: Device, env: Env, edited: seq<byte>, ghost s: Setup, ghost d: seq<byte>, ghost l: Layout, ghost t: Tables)
    returns (r: int, again: Disk, ghost y: Tables)
    requires Realizes(s, env) && Mounted(s, l, t) && Shows(l, d, t, d) && dev.data[..] == d && dev.blockSize == l.block
    requires |edited| == l.len
    modifies dev`faults, dev.data
    ensures CommitCut(s, t, edited, y) && Fits(l, y) && Shows(l, d, y, dev.data[..])
    ensures r == 0 ==> y == Committed(s, t, edited) && again.Loaded(y.h1, edited) && again.Separate(dev)
    ensures if r == 0 then dev.faults == old(dev.faults) else r == -1 && dev.faults > old(dev.faults)
  {
    y := t;
    var disk;
    r, disk := LoadTable(dev, env, s, d, l, t, d);
    again := disk;
    if r == 0 {
      r, y := EditLoaded(dev, disk, env, edited, s, d, l, t);
      if r == 0 {
        CommittedTable(s, env, l, t, edited);
        r, again := LoadTable(dev, env, s, d, l, y, dev.data[..]);
      }
    }
  }

  /** A new handle for a disk whose image x shows the tables t. */
  method LoadTable(
    dev: Device, env: Env, ghost s: Setup, ghost d: seq<byte>, ghost l: Layout, ghost t: Tables, ghost x: seq<byte>)
    returns (r: int, disk: Disk)
    requires Realizes(s, env) && Mounted(s, l, t) && Shows(l, d, t, x) && dev.data[..] == x && dev.blockSize == l.block
    modifies dev`faults
    ensures fresh(disk)
    ensures r == 0 ==> disk.Loaded(t.h1, t.e1) && disk.Separate(dev)
    ensures r == 0 ==> fresh(disk.hdr) && fresh(disk.hdrBak) && fresh(disk.pentryArr) && fresh(disk.pentryArrBak)
    ensures if r == 0 then dev.faults == old(dev.faults) else r == -1 && dev.faults > old(dev.faults)
  {
    Reloaded(s, l, d, t, x);
    disk := new Disk();
    r := disk.GetDiskInfo(dev, env, s, x, t.h1);
  }

  lemma Reloaded(s: Setup, l: Layout, d: seq<byte>, y: Tables, x: seq<byte>)
    requires Mounted(s, l, y) && Shows(l, d, y, x)
    ensures HeaderOf(l.block, x, Primary) == y.h1 && ArrayOf(s, l.block, x, y.h1, y.e1)
  {
    StillGood(s, l, d, y, x);
    ShowsArrays(l, d, y, x);
    ShowsHeaders(l, d, y, x);
  }

  method EditLoaded(
    dev: Device, disk: Disk, env: Env, edited: seq<byte>, ghost s: Setup, ghost d: seq<byte>, ghost l: Layout,
    ghost t: Tables)
    returns (r: int, ghost y: Tables)
    requires Realizes(s, env) && Mounted(s, l, t) && Shows(l, d, t, d) && dev.data[..] == d && dev.blockSize == l.block
    requires |edited| == l.len && disk.Loaded(t.h1, t.e1) && disk.Separate(dev)
    modifies disk, disk.hdr, disk.hdrBak, disk.pentryArr, dev`faults, dev.data
    ensures CommitCut(s, t, edited, y) && Fits(l, y) && Shows(l, d, y, dev.data[..])
    ensures if r == 0 then dev.faults == old(dev.faults) && y == Committed(s, t, edited)
            else r == -1 && dev.faults > old(dev.faults)
  {
    ghost var h := s.store(t.h1, s.crc(edited));
    UpdatedHeader(s, env, l, t, h, s.crc(edited));
    EditEntries(dev, disk, env, edited, t.h1, t.e1);
    r, y := CommitTable(dev, disk, env, edited, s, d, l, t, h);
  }

  /** Put any bytes in the entries of a loaded handle, and update its checksums. */
  method EditEntries(dev: Device, disk: Disk, env: Env, edited: seq<byte>, ghost h: seq<byte>, ghost e: seq<byte>)
    requires Header(h) && disk.Loaded(h, e) && disk.Separate(dev) && |edited| == |e|
    modifies disk, disk.hdr, disk.hdrBak, disk.pentryArr
    ensures disk.initialized && disk.Separate(dev)
    ensures disk.hdr[..] == WithArraySum(env.crc, h, env.crc(edited)) && disk.pentryArr[..] == edited
    ensures disk.hdr == old(disk.hdr) && disk.pentryArr == old(disk.pentryArr)
  {
    CopyInto(disk.pentryArr, 0, edited);
    assert disk.pentryArr[..] == edited;
    var _ := disk.UpdateCrc(env, h, h, edited, e);
  }

  /** The commit, in terms of the tables. */
  method CommitTable(
    dev: Device, disk: Disk, env: Env, edited: seq<byte>, ghost s: Setup, ghost d: seq<byte>, ghost l: Layout,
    ghost t: Tables, ghost h: seq<byte>)
    returns (r: int, ghost y: Tables)
    requires Realizes(s, env) && Mounted(s, l, t) && Shows(l, d, t, d) && dev.data[..] == d && dev.blockSize == l.block
    requires |edited| == l.len && disk.initialized && disk.Separate(dev) && disk.hdr[..] == h
              && disk.pentryArr[..] == edited
    requires h == s.store(t.h1, s.crc(edited))
    requires |h| == l.block && ArrayBytes(h) == l.len && Offset(ArrayLba(h), l.block) == l.prim
    modifies dev`faults, dev.data
    ensures CommitCut(s, t, edited, y) && Fits(l, y) && Shows(l, d, y, dev.data[..])
    ensures if r == 0 then dev.faults == old(dev.faults) && y == Committed(s, t, edited)
            else r == -1 && dev.faults > old(dev.faults)
  {
    r := disk.Commit(dev, d, h, edited);
    y := CommitReflects(s, env, l, d, t, h, edited, dev.data[..]);
    if r == 0 {
      y := Committed(s, t, edited);
      assert TornPrimary(t.(h1 := h), edited, |edited|) == y;
    }
  }
}
