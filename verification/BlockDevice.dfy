/** The update protocol as gpt-utils.cpp carries it out: on a block device whose reads, writes and
    control calls may fail, with the header and entries buffers changed in place. */
module BlockDevice {
  import opened Bytes
  import opened GptHeader
  import opened PartitionNames
  import opened BootChain
  import opened EntryArray
  import opened UpdateProtocol
  import opened DiskImage
  import opened GptInstance
  import opened ImagePlans

  datatype Chain = NormalBoot | BackupBoot

  /** A block device.  `switches` are the boot chains that calls on the device have switched the XBL
      boot LUN to, one after the other.  `faults` counts what the environment has refused so far: reads, writes,
      control calls, opening the device, switching the XBL boot LUN, and any transfer past the
      end of the device.  A power loss is a fault after which no further call is made. */
  class Device {
    const blockSize: nat
    const data: array<byte>
    var faults: nat
    var switches: seq<Chain>

    constructor (blockSize: nat, data: array<byte>)
      ensures this.blockSize == blockSize && this.data == data && faults == 0 && switches == []
    {
      this.blockSize := blockSize;
      this.data := data;
      faults := 0;
      switches := [];
    }

    /** Anything but a transfer that may be refused. */
    method Try() returns (ok: bool)
      modifies this`faults
      ensures faults == if ok then old(faults) else old(faults) + 1
    {
      ok := *;
      if !ok {
        faults := faults + 1;
      }
    }

    /** blk_rw for reading. */
    method ReadAt(offset: nat, len: nat) returns (r: int, buf: array<byte>)
      modifies this`faults
      ensures fresh(buf) && buf.Length == len
      ensures r == 0 ==> faults == old(faults) && offset + len <= data.Length && buf[..] == data[offset..offset + len]
      ensures r != 0 ==> r == -1 && faults > old(faults)
    {
      var ok := Try();
      if ok && offset + len > data.Length {
        faults := faults + 1;
        ok := false;
      }
      if ok {
        buf := Fresh(data[offset..offset + len]);
        r := 0;
      } else {
        buf := new byte[len](_ => 0);
        r := -1;
      }
    }

    /** blk_rw for writing a header block: a failing write may have landed, but not in part. */
    method WriteBlock(offset: nat, buf: array<byte>) returns (r: int, ghost landed: bool)
      requires offset + buf.Length <= data.Length && buf != data
      modifies this`faults, data
      ensures data[..] == if landed then Splice(old(data[..]), offset, buf[..]) else old(data[..])
      ensures if r == 0 then landed && faults == old(faults) else r == -1 && faults > old(faults)
    {
      var ok := Try();
      var reaches := *;
      if ok || reaches {
        CopyInto(data, offset, buf[..]);
      }
      landed := ok || reaches;
      r := if ok then 0 else -1;
    }

    /** blk_rw for writing an entries array: a failing write may have left any prefix. */
    method WriteArray(offset: nat, buf: array<byte>, len: nat) returns (r: int, ghost kept: nat)
      requires len <= buf.Length && buf != data
      modifies this`faults, data
      ensures kept == 0 || (kept <= len && offset + kept <= data.Length)
      ensures data[..] == if kept == 0 then old(data[..]) else Splice(old(data[..]), offset, buf[..kept])
      ensures r == 0 ==> faults == old(faults) && kept == len && offset + len <= data.Length
      ensures r != 0 ==> r == -1 && faults > old(faults)
    {
      var ok := Try();
      if ok && offset + len > data.Length {
        faults := faults + 1;
        ok := false;
      }
      var n: nat :| n <= len && (n == 0 || offset + n <= data.Length) && (ok ==> n == len);
      kept := n;
      if n > 0 {
        CopyInto(data, offset, buf[..n]);
      }
      r := if ok then 0 else -1;
    }
  }

  /** The device has room for both header blocks. */
  predicate Sized(dev: Device) {
    HEADER_FIELDS_END <= dev.blockSize && 3 * dev.blockSize <= dev.data.Length
  }

  /** The device holds block h at the place of the instance's header. */
  ghost predicate HoldsBlock(dev: Device, inst: Instance, h: seq<byte>)
    reads dev.data
  {
    Sized(dev) && h == HeaderOf(dev.blockSize, dev.data[..], inst)
  }

  // ---------- Header buffers ----------

  /** Seal a header buffer: clear the checksum field, sum, store. */
  method SealBuffer(hdr: array<byte>, crc: Checksum)
    requires Header(hdr[..])
    modifies hdr
    ensures hdr[..] == Seal(crc, old(hdr[..]))
  {
    ghost var h := hdr[..];
    var size := HeaderSize(hdr[..]);
    PutWord(hdr, HEADER_CRC_OFFSET, 0);
    assert hdr[..size] == Cleared(h)[..size];
    var sum := crc(hdr[..size]);
    PutWord(hdr, HEADER_CRC_OFFSET, sum);
    PutPut(h, HEADER_CRC_OFFSET, 0, sum);
  }

  /** Write or corrupt the signature in a header buffer. */
  method MarkBuffer(hdr: array<byte>, state: State)
    requires hdr.Length >= HEADER_FIELDS_END && state != BadCrc
    modifies hdr
    ensures hdr[..] == Marked(old(hdr[..]), state)
  {
    if state == Ok {
      CopyInto(hdr, 0, SIGNATURE);
    } else {
      ghost var h := hdr[..];
      hdr[0] := 0;
      assert hdr[..] == Splice(h, 0, [0]);
    }
  }

  method RewriteBuffer(hdr: array<byte>, crc: Checksum, state: State)
    requires Header(hdr[..]) && state != BadCrc
    modifies hdr
    ensures hdr[..] == WithState(crc, old(hdr[..]), state)
  {
    MarkedIsHeader(hdr[..], state);
    MarkBuffer(hdr, state);
    SealBuffer(hdr, crc);
  }

  // ---------- gpt_get_state ----------

  /** The checks of gpt_get_state on a header buffer, whose checksum field is cleared on the way. */
  method CheckBuffer(hdr: array<byte>, crc: Checksum) returns (state: State)
    requires Header(hdr[..])
    modifies hdr
    ensures state == StateOf(crc, old(hdr[..]))
  {
    ghost var h := hdr[..];
    state := Ok;
    if hdr[..9] != SIGNATURE {
      state := BadSignature;
    }
    assert hdr[..9] == h[..9];
    var size := HeaderSize(hdr[..]);
    var stored := Get4(hdr[..], HEADER_CRC_OFFSET);
    PutWord(hdr, HEADER_CRC_OFFSET, 0);
    assert hdr[..size] == Cleared(h)[..size];
    if crc(hdr[..size]) != stored {
      state := BadCrc;
    }
  }

  /** Read a header block. */
  method ReadHeader(dev: Device, inst: Instance, ghost h: seq<byte>) returns (r: int, hdr: array<byte>)
    requires HoldsBlock(dev, inst, h)
    modifies dev`faults
    ensures fresh(hdr)
    ensures if r == 0 then dev.faults == old(dev.faults) && hdr[..] == h else r == -1 && dev.faults > old(dev.faults)
  {
    r, hdr := dev.ReadAt(HeaderOffset(dev.blockSize, dev.data.Length, inst), dev.blockSize);
  }

  method GetState(dev: Device, env: Env, inst: Instance, ghost s: Setup, ghost h: seq<byte>)
    returns (r: int, state: State)
    requires Realizes(s, env) && s.info(h).readable && HoldsBlock(dev, inst, h)
    modifies dev`faults
    ensures if r == 0 then dev.faults == old(dev.faults) && state == s.info(h).state
            else r == -1 && dev.faults > old(dev.faults)
  {
    ReadInfo(s, env, h);
    state := Ok;
    var ok := dev.Try();
    if !ok {
      return -1, state;
    }
    var hdr;
    r, hdr := ReadHeader(dev, inst, h);
    if r == 0 {
      state := CheckBuffer(hdr, env.crc);
    }
  }

  // ---------- gpt_set_state ----------

  /** The marked and sealed header, in memory. */
  method Remark(hdr: array<byte>, env: Env, state: State, ghost s: Setup, ghost h: seq<byte>)
    requires Realizes(s, env) && s.info(h).readable && state != BadCrc && hdr[..] == h
    modifies hdr
    ensures hdr[..] == s.mark(h, state)
  {
    ReadInfo(s, env, h);
    RewriteBuffer(hdr, env.crc, state);
  }

  /** gpt_set_state refuses to set GPT_BAD_CRC; a failing write may have landed. */
  method SetState(dev: Device, env: Env, inst: Instance, state: State, ghost s: Setup, ghost d: seq<byte>)
    returns (r: int)
    requires Realizes(s, env) && Sized(dev) && dev.data[..] == d
    requires s.info(HeaderOf(dev.blockSize, d, inst)).readable
    modifies dev`faults, dev.data
    ensures state == BadCrc ==> r != 0 && dev.data[..] == d
    ensures var w := Marking(s, dev.blockSize, d, inst, state);
      && ImageCut(d, [w], dev.data[..])
      && (if r == 0 then dev.faults == old(dev.faults) && OnDevice(d, w) && dev.data[..] == Landed(d, w)
          else r == -1 && (dev.faults > old(dev.faults) || state == BadCrc))
  {
    var ok := dev.Try();
    if !ok {
      return -1;
    }
    ghost var h := HeaderOf(dev.blockSize, d, inst);
    ghost var w := Marking(s, dev.blockSize, d, inst, state);
    var hdr;
    r, hdr := ReadHeader(dev, inst, h);
    if r != 0 || state == BadCrc {
      return -1;
    }
    Remark(hdr, env, state, s, h);
    r := PutHeader(dev, inst, hdr, d, w);
  }

  lemma OneWrite(d: seq<byte>, w: Write, x: seq<byte>)
    requires x == d || (OnDevice(d, w) && x == Landed(d, w))
    ensures ImageCut(d, [w], x)
  {
    assert ImageCut(Landed(d, w), [w][1..], Landed(d, w));
  }

  // ---------- gpt2_set_boot_chain ----------

  /** gpt_get_pentry_arr: read the array that a header buffer points to, and the fields that
      describe it. */
  method ReadArrayOf(dev: Device, env: Env, hdr: array<byte>, ghost s: Setup, ghost h: seq<byte>)
    returns (r: int, arr: array<byte>, size: nat, sum: word)
    requires Realizes(s, env) && s.info(h).readable && hdr[..] == h
    modifies dev`faults
    ensures fresh(arr) && size == s.info(h).size && sum == s.info(h).sum && arr.Length == s.info(h).bytes
    ensures var at := Offset(s.info(h).lba, dev.blockSize);
      if r == 0 then
        dev.faults == old(dev.faults) && at + arr.Length <= dev.data.Length && arr[..] == dev.data[at..at + arr.Length]
      else r == -1 && dev.faults > old(dev.faults)
  {
    ReadInfo(s, env, h);
    var hd := hdr[..];
    size, sum := EntrySize(hd), ArraySum(hd);
    r, arr := dev.ReadAt(Offset(ArrayLba(hd), dev.blockSize), ArrayBytes(hd));
  }

  /** Where the primary array of an image lies, and its bytes if it lies on the device. */
  ghost predicate HasArray(s: Setup, block: nat, d: seq<byte>, e: seq<byte>)
    requires 2 * block <= |d|
  {
    var l := LayoutOf(s, block, d);
    l.prim + l.len <= |d| && e == d[l.prim..l.prim + l.len]
  }

  /** Read the primary array and check it against its stored checksum. */
  method ReadPrimaryArray(dev: Device, env: Env, ghost s: Setup, ghost d: seq<byte>)
    returns (r: int, pentries: array<byte>, pentrySize: nat)
    requires Realizes(s, env) && Readable(s, dev.blockSize, d) && dev.data[..] == d
    modifies dev`faults
    ensures fresh(pentries)
    ensures var p := s.info(HeaderOf(dev.blockSize, d, Primary));
      && (if dev.faults == old(dev.faults) then
            HasArray(s, dev.blockSize, d, pentries[..]) && r == (if s.crc(pentries[..]) == p.sum then 0 else -1)
          else r == -1 && dev.faults > old(dev.faults))
      && (r == 0 ==> pentrySize == p.size)
  {
    pentries := new byte[0];
    pentrySize := 0;
    ghost var h := HeaderOf(dev.blockSize, d, Primary);
    var ok := dev.Try();
    if !ok {
      return -1, pentries, pentrySize;
    }
    var hdr, sum;
    r, hdr := ReadHeader(dev, Primary, h);
    if r != 0 {
      return;
    }
    r, pentries, pentrySize, sum := ReadArrayOf(dev, env, hdr, s, h);
    if r == 0 && sum != env.crc(pentries[..]) {
      r := -1;
    }
  }

  /** PUT the array checksum into a header buffer and seal it. */
  method StoreBuffer(hdr: array<byte>, crc: Checksum, sum: word)
    requires Header(hdr[..])
    modifies hdr
    ensures hdr[..] == WithArraySum(crc, old(hdr[..]), sum)
  {
    PutSumIsHeader(hdr[..], sum);
    PutWord(hdr, PARTITION_CRC_OFFSET, sum);
    SealBuffer(hdr, crc);
  }

  /** Swap the boot chain in memory; 1 says that no name has a backup. */
  method SwapBuffer(pentries: array<byte>, size: nat, env: Env, ghost n: nat) returns (r: int)
    requires size >= PTN_ENTRY_SIZE && pentries.Length == EntryPos(n, size)
    modifies pentries
    ensures var w := GptSwap(env.names, env.ufs, old(pentries[..]), size);
      if w.Nothing? then r == 1 else r == 0 && pentries[..] == w.entries
  {
    SwapOfWholeEntries(env.names, env.ufs, pentries[..], size, n);
    r := BootChainSwap(pentries, size, env.names, env.ufs, n);
    FlattenEntries(pentries[..], size, n);
  }

  /** The array that is to be written, and whether there is one. */
  ghost function Target(s: Setup, e: seq<byte>, size: nat, swap: bool): SwapResult {
    if swap then s.swap(e, size) else SwappedTo(e)
  }

  /** The memory part: swap the entries if asked to, and put their checksum in the header. */
  method Rebuild(
    pentries: array<byte>, size: nat, hdr: array<byte>, env: Env, swap: bool, ghost s: Setup, ghost h1: seq<byte>,
    ghost h2: seq<byte>, ghost e: seq<byte>) returns (r: int)
    requires Realizes(s, env) && s.info(h1).readable && (swap ==> s.info(h1).valid) && s.info(h2).readable
    requires pentries[..] == e && |e| == s.info(h1).bytes && size == s.info(h1).size && hdr[..] == h2 && hdr != pentries
    modifies pentries, hdr
    ensures r == if Target(s, e, size, swap).Nothing? then 1 else 0
    ensures r == 0 ==>
              Target(s, e, size, swap) == SwappedTo(pentries[..]) && hdr[..] == s.store(h2, s.crc(pentries[..]))
  {
    ReadInfo(s, env, h1);
    ReadInfo(s, env, h2);
    if swap {
      r := SwapBuffer(pentries, size, env, EntryCount(h1));
      if r != 0 {
        return;
      }
    }
    StoreBuffer(hdr, env.crc, env.crc(pentries[..]));
    r := 0;
  }

  /** Everything up to the writes: the new secondary header and array, in memory, computed from the
      primary array e. */
  method ComputeSecondary(
    dev: Device, env: Env, swap: bool, ghost s: Setup, ghost d: seq<byte>, ghost h1: seq<byte>, ghost h2: seq<byte>)
    returns (r: int, hdr: array<byte>, pentries: array<byte>, start: nat, ghost e: seq<byte>)
    requires Realizes(s, env) && Readable(s, dev.blockSize, d) && dev.data[..] == d && (swap ==> s.info(h1).valid)
    requires h1 == HeaderOf(dev.blockSize, d, Primary) && h2 == HeaderOf(dev.blockSize, d, Secondary)
    modifies dev`faults
    ensures fresh(hdr) && fresh(pentries)
    ensures if dev.faults == old(dev.faults) then
              HasArray(s, dev.blockSize, d, e) && r == SecondaryCode(s, e, s.info(h1), swap)
            else r == -1 && dev.faults > old(dev.faults)
    ensures r == 0 ==> dev.faults == old(dev.faults) && Target(s, e, s.info(h1).size, swap) == SwappedTo(pentries[..])
    ensures r == 0 ==> hdr[..] == s.store(h2, s.crc(pentries[..])) && hdr.Length == dev.blockSize
    ensures r == 0 ==> start == Offset(s.info(h2).lba, dev.blockSize)
  {
    hdr := new byte[0];
    start := 0;
    var pentrySize;
    r, pentries, pentrySize := ReadPrimaryArray(dev, env, s, d);
    e := pentries[..];
    if r != 0 {
      return;
    }
    r, hdr := ReadHeader(dev, Secondary, h2);
    if r != 0 {
      return;
    }
    ReadInfo(s, env, h2);
    start := Offset(ArrayLba(hdr[..]), dev.blockSize);
    r := Rebuild(pentries, pentrySize, hdr, env, swap, s, h1, h2, e);
  }

  /** The code before any write: -1 for a wrong checksum, 1 if there is nothing to swap. */
  ghost function SecondaryCode(s: Setup, e: seq<byte>, p: Info, swap: bool): int {
    if s.crc(e) != p.sum then -1 else if Target(s, e, p.size, swap).Nothing? then 1 else 0
  }

  /** Write a header block. */
  method PutHeader(dev: Device, inst: Instance, hdr: array<byte>, ghost d: seq<byte>, ghost w: Write) returns (r: int)
    requires Sized(dev) && dev.data[..] == d && hdr != dev.data && hdr.Length == dev.blockSize
    requires w == HeaderWrite(HeaderOffset(dev.blockSize, |d|, inst), hdr[..])
    modifies dev`faults, dev.data
    ensures ImageCut(d, [w], dev.data[..])
    ensures if r == 0 then dev.faults == old(dev.faults) && OnDevice(d, w) && dev.data[..] == Landed(d, w)
            else r == -1 && dev.faults > old(dev.faults)
  {
    ghost var landed;
    r, landed := dev.WriteBlock(HeaderOffset(dev.blockSize, dev.data.Length, inst), hdr);
    OneWrite(d, w, dev.data[..]);
  }

  /** Write the first bytes of a buffer as an array. */
  method PutArray(dev: Device, start: nat, buf: array<byte>, len: nat, ghost d: seq<byte>, ghost w: Write)
    returns (r: int)
    requires dev.data[..] == d && buf != dev.data && len <= buf.Length && w == ArrayWrite(start, buf[..len])
    modifies dev`faults, dev.data
    ensures ImageCut(d, [w], dev.data[..])
    ensures if r == 0 then dev.faults == old(dev.faults) && OnDevice(d, w) && dev.data[..] == Landed(d, w)
            else r == -1 && dev.faults > old(dev.faults)
  {
    ghost var kept;
    r, kept := dev.WriteArray(start, buf, len);
    if kept > 0 {
      assert w.bytes[..kept] == buf[..kept];
      assert Partly(d, w, dev.data[..]);
    }
    if r == 0 {
      assert w.bytes[..kept] == w.bytes;
      assert kept == 0 ==> Splice(d, start, w.bytes) == d;
    }
  }

  /** Write the secondary header, then the secondary array. */
  method WriteSecondary(
    dev: Device, hdr: array<byte>, pentries: array<byte>, start: nat, ghost d: seq<byte>, ghost w: Write,
    ghost v: Write)
    returns (r: int)
    requires Sized(dev) && dev.data[..] == d && hdr != dev.data && pentries != dev.data && hdr.Length == dev.blockSize
    requires w == HeaderWrite(|d| - dev.blockSize, hdr[..]) && v == ArrayWrite(start, pentries[..])
    modifies dev`faults, dev.data
    ensures ImageCut(d, [w] + [v], dev.data[..])
    ensures if r == 0 then
              dev.faults == old(dev.faults) && AllOnDevice(d, [w] + [v]) && dev.data[..] == AllLanded(d, [w] + [v])
            else r == -1 && dev.faults > old(dev.faults)
  {
    assert pentries[..pentries.Length] == pentries[..];
    r := PutHeader(dev, Secondary, hdr, d, w);
    if r == 0 {
      r := PutArray(dev, start, pentries, pentries.Length, Landed(d, w), v);
      BothLanded(d, w, v);
    }
    ImageCutAppend(d, [w], [v], dev.data[..]);
  }

  lemma BothLanded(d: seq<byte>, w: Write, v: Write)
    ensures AllLanded(d, [w]) == Landed(d, w)
    ensures AllLanded(d, [w] + [v]) == Landed(Landed(d, w), v)
  {
    var y := Landed(d, w);
    assert [w][1..] == [] && [v][1..] == [];
    assert AllLanded(y, [v]) == AllLanded(Landed(y, v), []);
    LandedAppend(d, [w], [v]);
  }

  /** What a return code of gpt2_set_boot_chain means when nothing fails. */
  function ChainCode(plan: ImagePlan): int {
    match plan case Refused => -1 case Skipped => 1 case Writing(_) => 0
  }

  /** gpt2_set_boot_chain.  If nothing fails, the planned writes are made; whatever fails, the disk is
      left at a cut of them. */
  method SetBootChain(dev: Device, env: Env, swap: bool, ghost s: Setup, ghost d: seq<byte>) returns (r: int)
    requires Realizes(s, env) && Readable(s, dev.blockSize, d) && dev.data[..] == d
    requires swap ==> s.info(HeaderOf(dev.blockSize, d, Primary)).valid
    modifies dev`faults, dev.data
    ensures var c := ImageChain(s, dev.blockSize, d, swap);
      && ImageCut(d, Writes(c), dev.data[..])
      && (if dev.faults == old(dev.faults) then
            r == ChainCode(c) && AllOnDevice(d, Writes(c)) && dev.data[..] == AllLanded(d, Writes(c))
          else r == -1 && dev.faults > old(dev.faults))
  {
    ghost var h1, h2 := HeaderOf(dev.blockSize, d, Primary), HeaderOf(dev.blockSize, d, Secondary);
    var hdr, pentries, start;
    ghost var e;
    r, hdr, pentries, start, e := ComputeSecondary(dev, env, swap, s, d, h1, h2);
    if r == 0 {
      ghost var w, v := HeaderWrite(|d| - dev.blockSize, hdr[..]), ArrayWrite(start, pentries[..]);
      assert ImageChain(s, dev.blockSize, d, swap) == Writing([w] + [v]);
      r := WriteSecondary(dev, hdr, pentries, start, d, w, v);
    }
  }
}
