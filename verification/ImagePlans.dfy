/** What prepare_partitions writes, as a list of writes to the bytes of a disk, for every disk whose
    two header blocks can be read; and what the list amounts to on a disk that is laid out well. */
module ImagePlans {
  import opened Bytes
  import opened GptHeader
  import opened UpdateProtocol
  import opened DiskImage

  // ---------- Lists of writes ----------

  /** The write of a header block happens whole or not at all; that of an array may stop anywhere. */
  datatype Write = HeaderWrite(at: nat, bytes: seq<byte>) | ArrayWrite(at: nat, bytes: seq<byte>)

  ghost predicate OnDevice(d: seq<byte>, w: Write) {
    w.at + |w.bytes| <= |d|
  }

  ghost function Landed(d: seq<byte>, w: Write): (x: seq<byte>)
    ensures |x| == |d|
  {
    if OnDevice(d, w) then Splice(d, w.at, w.bytes) else d
  }

  ghost function AllLanded(d: seq<byte>, ws: seq<Write>): (x: seq<byte>)
    ensures |x| == |d|
    decreases |ws|
  {
    if ws == [] then d else AllLanded(Landed(d, ws[0]), ws[1..])
  }

  ghost predicate AllOnDevice(d: seq<byte>, ws: seq<Write>) {
    forall k :: 0 <= k < |ws| ==> OnDevice(d, ws[k])
  }

  /** A write of an array that stopped after some prefix. */
  ghost predicate Partly(d: seq<byte>, w: Write, x: seq<byte>) {
    w.ArrayWrite? && exists k :: 0 <= k <= |w.bytes| && w.at + k <= |d| && x == Splice(d, w.at, w.bytes[..k])
  }

  /** x is on the device at some point of making the writes. */
  ghost predicate ImageCut(d: seq<byte>, ws: seq<Write>, x: seq<byte>)
    decreases |ws|
  {
    x == d || (ws != [] && (Partly(d, ws[0], x) || (OnDevice(d, ws[0]) && ImageCut(Landed(d, ws[0]), ws[1..], x))))
  }

  lemma {:induction false} CutKeepsLength(d: seq<byte>, ws: seq<Write>, x: seq<byte>)
    requires ImageCut(d, ws, x)
    ensures |x| == |d|
    decreases |ws|
  {
    if ws != [] && x != d && !Partly(d, ws[0], x) {
      CutKeepsLength(Landed(d, ws[0]), ws[1..], x);
    }
  }

  lemma {:induction false} LandedAppend(d: seq<byte>, a: seq<Write>, b: seq<Write>)
    ensures AllLanded(d, a + b) == AllLanded(AllLanded(d, a), b)
    decreases |a|
  {
    if a == [] {
      assert a + b == b;
    } else {
      assert (a + b)[0] == a[0] && (a + b)[1..] == a[1..] + b;
      LandedAppend(Landed(d, a[0]), a[1..], b);
    }
  }

  lemma {:induction false} ImageCutAppend(d: seq<byte>, a: seq<Write>, b: seq<Write>, x: seq<byte>)
    requires ImageCut(d, a, x) || (AllOnDevice(d, a) && ImageCut(AllLanded(d, a), b, x))
    ensures ImageCut(d, a + b, x)
    decreases |a|
  {
    if a == [] {
      assert a + b == b;
    } else {
      assert (a + b)[0] == a[0] && (a + b)[1..] == a[1..] + b;
      if x != d && !Partly(d, a[0], x) {
        var y := Landed(d, a[0]);
        assert AllOnDevice(d, a) ==> AllOnDevice(y, a[1..]);
        ImageCutAppend(y, a[1..], b, x);
      }
    }
  }

  lemma {:induction false} LandedIsCut(d: seq<byte>, ws: seq<Write>)
    requires AllOnDevice(d, ws)
    ensures ImageCut(d, ws, AllLanded(d, ws))
    decreases |ws|
  {
    if ws != [] {
      LandedIsCut(Landed(d, ws[0]), ws[1..]);
    }
  }

  // ---------- The writes of a call ----------

  /** Refused: a non-zero code and no write.  Skipped: success and no write. */
  datatype ImagePlan = Refused | Skipped | Writing(writes: seq<Write>)

  function Writes(plan: ImagePlan): seq<Write> {
    if plan.Writing? then plan.writes else []
  }

  /** The signature and the checksum of both header blocks can be examined. */
  ghost predicate Readable(s: Setup, block: nat, d: seq<byte>) {
    && HEADER_FIELDS_END <= block && 3 * block <= |d|
    && s.info(HeaderOf(block, d, Primary)).readable && s.info(HeaderOf(block, d, Secondary)).readable
  }

  /** gpt_set_state: the header that is on the device by then, marked. */
  ghost function Marking(s: Setup, block: nat, d: seq<byte>, inst: Instance, state: State): Write
    requires 2 * block <= |d|
  {
    HeaderWrite(HeaderOffset(block, |d|, inst), s.mark(HeaderOf(block, d, inst), state))
  }

  /** gpt2_set_boot_chain.  The size of both arrays is read from the primary header, the place of the
      secondary one from the secondary header. */
  ghost function ImageChain(s: Setup, block: nat, d: seq<byte>, swap: bool): ImagePlan
    requires 2 * block <= |d|
  {
    var h2, l, p := HeaderOf(block, d, Secondary), LayoutOf(s, block, d), s.info(HeaderOf(block, d, Primary));
    if l.prim + l.len > |d| || s.crc(d[l.prim..l.prim + l.len]) != p.sum then Refused
    else
      var e := d[l.prim..l.prim + l.len];
      match if swap then s.swap(e, p.size) else SwappedTo(e)
      case Nothing => Skipped
      case SwappedTo(f) => Writing([HeaderWrite(|d| - block, s.store(h2, s.crc(f))), ArrayWrite(l.sec, f)])
  }

  /** The writes of a chain, and then a header marked. */
  ghost function ThenMark(s: Setup, block: nat, d: seq<byte>, c: ImagePlan, inst: Instance, state: State): ImagePlan
    requires 2 * block <= |d|
  {
    if c.Writing? then Writing(c.writes + [Marking(s, block, AllLanded(d, c.writes), inst, state)]) else c
  }

  ghost function ImageStage(s: Setup, block: nat, d: seq<byte>, stage: Stage): ImagePlan
    requires 2 * block <= |d|
  {
    match stage
    case Main => ThenMark(s, block, d, ImageChain(s, block, d, true), Primary, BadSignature)
    case Backup =>
      var w := Marking(s, block, d, Primary, Ok);
      Writing([w, Marking(s, block, Landed(d, w), Secondary, BadSignature)])
    case Finalize => ThenMark(s, block, d, ImageChain(s, block, d, false), Secondary, Ok)
  }

  /** The stage that the headers of an image ask for. */
  ghost function SelectedBy(s: Setup, block: nat, d: seq<byte>): Selection
    requires 2 * block <= |d|
  {
    Select(s.info(HeaderOf(block, d, Primary)).state, s.info(HeaderOf(block, d, Secondary)).state)
  }

  /** prepare_partitions. */
  ghost function ImagePrepare(s: Setup, block: nat, d: seq<byte>, stage: Stage): ImagePlan
    requires 2 * block <= |d|
  {
    match SelectedBy(s, block, d)
    case Corrupt => Refused
    case Next(selected) =>
      if Number(stage) == Number(selected) - 1 then Skipped
      else if stage != selected then Refused
      else ImageStage(s, block, d, stage)
  }

  /** The header that the chain of a stage leaves to be marked. */
  ghost function LeftHeader(s: Setup, block: nat, d: seq<byte>, stage: Stage): seq<byte>
    requires 2 * block <= |d|
  {
    var c := ImageChain(s, block, d, stage == Main);
    HeaderOf(block, AllLanded(d, Writes(c)), if stage == Main then Primary else Secondary)
  }

  /** What a call demands of a disk: two header blocks that can be read.  Only if the stage is due
      does it demand more: MAIN walks over the entries that the primary header describes, and what
      MAIN and FINALIZE leave of the header that they mark can be read, too. */
  ghost predicate Workable(s: Setup, block: nat, d: seq<byte>, stage: Stage) {
    && Readable(s, block, d)
    && (SelectedBy(s, block, d) == Next(stage) && stage == Main ==> s.info(HeaderOf(block, d, Primary)).valid)
    && (SelectedBy(s, block, d) == Next(stage) && stage != Backup ==>
          var c := ImageChain(s, block, d, stage == Main);
          c.Writing? && AllOnDevice(d, c.writes) ==> s.info(LeftHeader(s, block, d, stage)).readable)
  }

  /** A bad checksum on either side, or two bad signatures: whatever else the headers say, every
      call is refused, and whatever fails in it, no byte is written. */
  lemma CorruptImageIsRefused(s: Setup, block: nat, d: seq<byte>, stage: Stage, x: seq<byte>)
    requires Readable(s, block, d)
    requires var p, q := s.info(HeaderOf(block, d, Primary)).state, s.info(HeaderOf(block, d, Secondary)).state;
      p == BadCrc || q == BadCrc || (p == BadSignature && q == BadSignature)
    requires ImageCut(d, Writes(ImagePrepare(s, block, d, stage)), x)
    ensures Workable(s, block, d, stage) && ImagePrepare(s, block, d, stage) == Refused && x == d
  {
  }

  // ---------- Which regions the writes touch ----------

  ghost predicate Meets(w: Write, at: nat, len: nat) {
    len > 0 && w.bytes != [] && !Apart(at, len, w.at, |w.bytes|)
  }

  ghost predicate Clear(ws: seq<Write>, at: nat, len: nat) {
    forall k :: 0 <= k < |ws| ==> !Meets(ws[k], at, len)
  }

  /** The writes that are begun on a device of this size: none after one that does not fit. */
  ghost function Begun(size: nat, ws: seq<Write>): seq<Write>
    decreases |ws|
  {
    if ws == [] then []
    else if ws[0].at + |ws[0].bytes| <= size then [ws[0]] + Begun(size, ws[1..])
    else [ws[0]]
  }

  /** A region that no write meets keeps its bytes, wherever the writes stop. */
  lemma {:induction false} ClearKeeps(d: seq<byte>, ws: seq<Write>, x: seq<byte>, at: nat, len: nat)
    requires Clear(Begun(|d|, ws), at, len) && ImageCut(d, ws, x) && at + len <= |d|
    ensures |x| == |d| && forall i {:trigger x[i]} :: at <= i < at + len ==> x[i] == d[i]
    decreases |ws|
  {
    if ws != [] && x != d {
      var begun := Begun(|d|, ws);
      assert begun[0] == ws[0] && !Meets(begun[0], at, len);
      if !Partly(d, ws[0], x) {
        assert begun[1..] == Begun(|d|, ws[1..]);
        forall k | 0 <= k < |begun[1..]| ensures !Meets(begun[1..][k], at, len) {
          assert begun[1..][k] == begun[k + 1];
        }
        ClearKeeps(Landed(d, ws[0]), ws[1..], x, at, len);
      }
    }
  }

  /** The regions of the disk are such that the stage leaves the primary array alone.  MAIN comes to
      its write of the primary header only if the secondary array lies on the device. */
  ghost predicate PrimarySpared(s: Setup, block: nat, d: seq<byte>, stage: Stage)
    requires 2 * block <= |d|
  {
    var l := LayoutOf(s, block, d);
    l.len > 0 ==>
      && Apart(l.prim, l.len, |d| - block, block)
      && (stage != Backup ==> Apart(l.prim, l.len, l.sec, l.len))
      && (stage == Backup || (stage == Main && l.sec + l.len <= |d|) ==> Apart(l.prim, l.len, block, block))
  }

  /** The writes of MAIN and FINALIZE that are begun. */
  lemma ChainBegun(s: Setup, block: nat, d: seq<byte>, stage: Stage) returns (w: Write, v: Write, m: Write)
    requires Lawful(s) && Workable(s, block, d, stage) && SelectedBy(s, block, d) == Next(stage) && stage != Backup
    requires ImagePrepare(s, block, d, stage).Writing?
    ensures var l := LayoutOf(s, block, d);
      && Begun(|d|, Writes(ImagePrepare(s, block, d, stage))) == (if l.sec + l.len <= |d| then [w, v, m] else [w, v])
      && w.at == |d| - block && |w.bytes| == block && v.at == l.sec && |v.bytes| == l.len
      && (l.sec + l.len <= |d| ==>
            m.at == HeaderOffset(block, |d|, if stage == Main then Primary else Secondary) && |m.bytes| == block)
  {
    var h2, l := HeaderOf(block, d, Secondary), LayoutOf(s, block, d);
    var ws := Writes(ImagePrepare(s, block, d, stage));
    w, v, m := ws[0], ws[1], ws[2];
    assert ws == [w, v, m] && s.info(w.bytes) == s.info(h2).(sum := s.crc(v.bytes));
    if l.sec + l.len <= |d| {
      var h, st := LeftHeader(s, block, d, stage), if stage == Main then BadSignature else Ok;
      assert AllOnDevice(d, [w, v]);
      assert s.info(s.mark(h, st)) == s.info(h).(state := st);
    }
    ThreeBegun(|d|, w, v, m);
  }

  lemma ThreeBegun(size: nat, w: Write, v: Write, m: Write)
    requires w.at + |w.bytes| <= size && (v.at + |v.bytes| <= size ==> m.at + |m.bytes| <= size)
    ensures Begun(size, [w, v, m]) == if v.at + |v.bytes| <= size then [w, v, m] else [w, v]
  {
    assert [w, v, m][1..] == [v, m] && [v, m][1..] == [m] && [m][1..] == [];
    assert Begun(size, [m]) == [m];
    assert Begun(size, [v, m]) == if v.at + |v.bytes| <= size then [v, m] else [v];
  }

  lemma BackupBegun(s: Setup, block: nat, d: seq<byte>) returns (w: Write, v: Write)
    requires Lawful(s) && Readable(s, block, d) && SelectedBy(s, block, d) == Next(Backup)
    ensures Begun(|d|, Writes(ImagePrepare(s, block, d, Backup))) == [w, v]
    ensures w.at == block && v.at == |d| - block && |w.bytes| == |v.bytes| == block
  {
    var h1, h2 := HeaderOf(block, d, Primary), HeaderOf(block, d, Secondary);
    w := Marking(s, block, d, Primary, Ok);
    v := Marking(s, block, Landed(d, w), Secondary, BadSignature);
    assert s.info(s.mark(h1, Ok)) == s.info(h1).(state := Ok);
    assert HeaderOf(block, Landed(d, w), Secondary) == h2;
    assert s.info(s.mark(h2, BadSignature)) == s.info(h2).(state := BadSignature);
    assert [w, v][1..] == [v] && [v][1..] == [];
    assert Begun(|d|, [v]) == [v];
  }

  /** A stage that is due and writes leaves the primary array alone exactly if the places that the
      headers name keep clear of it.  The code does not check that they do. */
  lemma PrimarySparedIff(s: Setup, block: nat, d: seq<byte>, stage: Stage)
    requires Lawful(s) && Workable(s, block, d, stage) && SelectedBy(s, block, d) == Next(stage)
    requires ImagePrepare(s, block, d, stage).Writing?
    ensures var l := LayoutOf(s, block, d);
      Clear(Begun(|d|, Writes(ImagePrepare(s, block, d, stage))), l.prim, l.len) <==> PrimarySpared(s, block, d, stage)
  {
    if stage == Backup {
      var l := LayoutOf(s, block, d);
      var w, v := BackupBegun(s, block, d);
      ClearOfTwo(w, v, l.prim, l.len);
    } else {
      ChainSparedIff(s, block, d, stage, LayoutOf(s, block, d), Begun(|d|, Writes(ImagePrepare(s, block, d, stage))));
    }
  }

  lemma ChainSparedIff(s: Setup, block: nat, d: seq<byte>, stage: Stage, l: Layout, begun: seq<Write>)
    requires Lawful(s) && Workable(s, block, d, stage) && SelectedBy(s, block, d) == Next(stage) && stage != Backup
    requires ImagePrepare(s, block, d, stage).Writing? && l == LayoutOf(s, block, d)
    requires begun == Begun(|d|, Writes(ImagePrepare(s, block, d, stage)))
    ensures Clear(begun, l.prim, l.len) <==> PrimarySpared(s, block, d, stage)
  {
    var w, v, m := ChainBegun(s, block, d, stage);
    ClearOfTwo(w, v, l.prim, l.len);
    ClearOfThree(w, v, m, l.prim, l.len);
  }

  lemma ClearOfTwo(w: Write, v: Write, at: nat, len: nat)
    ensures Clear([w, v], at, len) <==> !Meets(w, at, len) && !Meets(v, at, len)
  {
    assert [w, v][0] == w && [w, v][1] == v;
  }

  lemma ClearOfThree(w: Write, v: Write, m: Write, at: nat, len: nat)
    ensures Clear([w, v, m], at, len) <==> !Meets(w, at, len) && !Meets(v, at, len) && !Meets(m, at, len)
  {
    assert [w, v, m][0] == w && [w, v, m][1] == v && [w, v, m][2] == m;
  }

  /** If they do, the primary array is as it was whatever fails in the call. */
  lemma PrimaryKept(s: Setup, block: nat, d: seq<byte>, stage: Stage, l: Layout, ws: seq<Write>, x: seq<byte>)
    requires Lawful(s) && Workable(s, block, d, stage) && l == LayoutOf(s, block, d) && l.prim + l.len <= |d|
    requires ws == Writes(ImagePrepare(s, block, d, stage)) && ImageCut(d, ws, x)
    requires ws != [] ==> PrimarySpared(s, block, d, stage)
    ensures |x| == |d| && forall i {:trigger x[i]} :: l.prim <= i < l.prim + l.len ==> x[i] == d[i]
  {
    if ws != [] {
      SparedIsClear(s, block, d, stage, l, ws);
      ClearKeeps(d, ws, x, l.prim, l.len);
    }
  }

  lemma SparedIsClear(s: Setup, block: nat, d: seq<byte>, stage: Stage, l: Layout, ws: seq<Write>)
    requires Lawful(s) && Workable(s, block, d, stage) && l == LayoutOf(s, block, d)
    requires ws == Writes(ImagePrepare(s, block, d, stage)) != [] && PrimarySpared(s, block, d, stage)
    ensures Clear(Begun(|d|, ws), l.prim, l.len)
  {
    PrimarySparedIff(s, block, d, stage);
  }
}
