/** prepare_partitions: the three stages of an update on one device, whatever fails. */
module UpdateStages {
  import opened Bytes
  import opened GptHeader
  import opened UpdateProtocol
  import opened DiskImage
  import opened GptInstance
  import opened ImagePlans
  import opened BlockDevice

  /** The two header writes of UPDATE_BACKUP. */
  method RunBackup(dev: Device, env: Env, ghost s: Setup, ghost d: seq<byte>) returns (r: int)
    requires Realizes(s, env) && Readable(s, dev.blockSize, d) && dev.data[..] == d
    modifies dev`faults, dev.data
    ensures var ws := Writes(ImageStage(s, dev.blockSize, d, Backup));
      && ImageCut(d, ws, dev.data[..])
      && (if r == 0 then dev.faults == old(dev.faults) && dev.data[..] == AllLanded(d, ws)
          else r == -1 && dev.faults > old(dev.faults))
  {
    ghost var w := Marking(s, dev.blockSize, d, Primary, Ok);
    ghost var y := Landed(d, w);
    ghost var v := Marking(s, dev.blockSize, y, Secondary, BadSignature);
    BackupWrites(s, env, dev.blockSize, d, w, y, v);
    r := SetState(dev, env, Primary, Ok, s, d);
    if r == 0 {
      r := SetState(dev, env, Secondary, BadSignature, s, y);
    }
    ImageCutAppend(d, [w], [v], dev.data[..]);
  }

  lemma BackupWrites(s: Setup, env: Env, block: nat, d: seq<byte>, w: Write, y: seq<byte>, v: Write)
    requires Realizes(s, env) && Readable(s, block, d)
    requires w == Marking(s, block, d, Primary, Ok) && y == Landed(d, w)
    requires v == Marking(s, block, y, Secondary, BadSignature)
    ensures Writes(ImageStage(s, block, d, Backup)) == [w] + [v]
    ensures AllLanded(d, [w]) == y && AllLanded(d, [w] + [v]) == Landed(y, v)
    ensures s.info(HeaderOf(block, y, Secondary)).readable
  {
    assert [w] + [v] == [w, v];
    BothLanded(d, w, v);
    MarkedLength(s, env, block, d, Primary, Ok);
    assert HeaderOf(block, y, Secondary) == HeaderOf(block, d, Secondary);
  }

  lemma MarkedLength(s: Setup, env: Env, block: nat, d: seq<byte>, inst: Instance, st: State)
    requires Realizes(s, env) && 2 * block <= |d| && st != BadCrc && s.info(HeaderOf(block, d, inst)).readable
    ensures |Marking(s, block, d, inst, st).bytes| == block
  {
    var h := HeaderOf(block, d, inst);
    ReadInfo(s, env, h);
    assert s.mark(h, st) == WithState(env.crc, h, st);
  }

  /** Rewrite the secondary table, then mark a header.  Having no backup partitions is no error, and
      nothing is written then. */
  method RunChain(dev: Device, env: Env, swap: bool, ghost s: Setup, ghost d: seq<byte>, ghost h: seq<byte>)
    returns (r: int)
    requires Realizes(s, env) && Readable(s, dev.blockSize, d) && dev.data[..] == d
    requires swap ==> s.info(HeaderOf(dev.blockSize, d, Primary)).valid
    requires var c := ImageChain(s, dev.blockSize, d, swap);
      && h == HeaderOf(dev.blockSize, AllLanded(d, Writes(c)), if swap then Primary else Secondary)
      && (c.Writing? && AllOnDevice(d, c.writes) ==> s.info(h).readable)
    modifies dev`faults, dev.data
    ensures var c := ImageChain(s, dev.blockSize, d, swap);
      var plan := if swap then ThenMark(s, dev.blockSize, d, c, Primary, BadSignature)
                  else ThenMark(s, dev.blockSize, d, c, Secondary, Ok);
      && ImageCut(d, Writes(plan), dev.data[..])
      && (if dev.faults == old(dev.faults) then r == Code(plan) && dev.data[..] == AllLanded(d, Writes(plan))
          else r == -1 && dev.faults > old(dev.faults))
  {
    ghost var c := ImageChain(s, dev.blockSize, d, swap);
    ghost var y := AllLanded(d, Writes(c));
    ghost var v := if swap then Marking(s, dev.blockSize, y, Primary, BadSignature)
                   else Marking(s, dev.blockSize, y, Secondary, Ok);
    r := SetBootChain(dev, env, swap, s, d);
    if r == 0 {
      if swap {
        r := SetState(dev, env, Primary, BadSignature, s, y);
      } else {
        r := SetState(dev, env, Secondary, Ok, s, y);
      }
      LastLanded(d, Writes(c), v);
    } else if r > 0 {
      r := 0;
    }
    ImageCutAppend(d, Writes(c), [v], dev.data[..]);
  }

  lemma LastLanded(d: seq<byte>, ws: seq<Write>, w: Write)
    ensures AllLanded(d, ws + [w]) == Landed(AllLanded(d, ws), w)
  {
    var y := AllLanded(d, ws);
    LandedAppend(d, ws, [w]);
    assert [w][1..] == [] && AllLanded(y, [w]) == AllLanded(Landed(y, w), []);
  }

  /** The return code of a call in which nothing fails. */
  function Code(plan: ImagePlan): int {
    if plan == Refused then -1 else 0
  }

  /** gpt_utils_set_xbl_boot_partition: switch the boot LUN, which may fail. */
  method SetXblBootPartition(dev: Device, chain: Chain) returns (r: int)
    modifies dev`faults, dev`switches
    ensures if r == 0 then dev.faults == old(dev.faults) && dev.switches == old(dev.switches) + [chain]
            else r == -1 && dev.faults > old(dev.faults) && dev.switches == old(dev.switches)
  {
    var ok := dev.Try();
    if ok {
      dev.switches := dev.switches + [chain];
    }
    r := if ok then 0 else -1;
  }

  /** The boot chains that a due stage switches the XBL boot LUN to, before any write: only on UFS
      with an XBL partition and its backup, and never for FINALIZE. */
  function SwitchesOf(stage: Stage, ufs: bool, xbl: bool): seq<Chain> {
    if !ufs || !xbl || stage == Finalize then []
    else if stage == Main then [BackupBoot]
    else [NormalBoot]
  }

  /** The switch over the selected stage. */
  method RunStage(dev: Device, env: Env, stage: Stage, ghost s: Setup, ghost d: seq<byte>)
    returns (r: int)
    requires Realizes(s, env) && Workable(s, dev.blockSize, d, stage) && dev.data[..] == d
    requires SelectedBy(s, dev.blockSize, d) == Next(stage)
    modifies dev`faults, dev`switches, dev.data
    ensures var plan := ImageStage(s, dev.blockSize, d, stage);
      && ImageCut(d, Writes(plan), dev.data[..])
      && (if dev.faults == old(dev.faults) then r == Code(plan) && dev.data[..] == AllLanded(d, Writes(plan))
          else r != 0 && dev.faults > old(dev.faults))
    ensures dev.switches == old(dev.switches) + SwitchesOf(stage, env.ufs, env.xbl)
      || (dev.switches == old(dev.switches) && dev.data[..] == d && dev.faults > old(dev.faults))
  {
    r := 0;
    match stage {
      case Main =>
        if env.ufs && env.xbl {
          r := SetXblBootPartition(dev, BackupBoot);
        }
        if r == 0 {
          r := RunChain(dev, env, true, s, d, LeftHeader(s, dev.blockSize, d, stage));
        }
      case Backup =>
        if env.ufs && env.xbl {
          r := SetXblBootPartition(dev, NormalBoot);
        }
        if r == 0 {
          r := RunBackup(dev, env, s, d);
        }
      case Finalize =>
        r := RunChain(dev, env, false, s, d, LeftHeader(s, dev.blockSize, d, stage));
    }
  }

  /** Read both header states; like the C `||`, a failure yields 1. */
  method GetStates(dev: Device, env: Env, ghost s: Setup, ghost h1: seq<byte>, ghost h2: seq<byte>)
    returns (r: int, p: State, q: State)
    requires Realizes(s, env) && HoldsBlock(dev, Primary, h1) && HoldsBlock(dev, Secondary, h2)
    requires s.info(h1).readable && s.info(h2).readable
    modifies dev`faults
    ensures if r == 0 then dev.faults == old(dev.faults) && p == s.info(h1).state && q == s.info(h2).state
            else r == 1 && dev.faults > old(dev.faults)
  {
    q := Ok;
    r, p := GetState(dev, env, Primary, s, h1);
    if r == 0 {
      r, q := GetState(dev, env, Secondary, s, h2);
    }
    if r != 0 {
      r := 1;
    }
  }

  /** prepare_partitions on any disk whose header blocks can be read.  With no fault the planned
      writes are made and the code of the plan is returned; with a fault the code is not zero and the
      image is left at a cut of them.  On UFS with XBL a due MAIN has switched to the backup boot LUN,
      and a due BACKUP to the normal one, before the first write.  A bad checksum or two bad signatures
      mean a refusal, and a refusal means that no byte changes, whatever fails. */
  method PreparePartitions(dev: Device, env: Env, stage: Stage, ghost s: Setup) returns (r: int)
    requires Realizes(s, env) && Workable(s, dev.blockSize, dev.data[..], stage)
    modifies dev`faults, dev`switches, dev.data
    ensures var plan := ImagePrepare(s, dev.blockSize, old(dev.data[..]), stage);
      && ImageCut(old(dev.data[..]), Writes(plan), dev.data[..])
      && (if dev.faults == old(dev.faults) then
            r == Code(plan) && dev.data[..] == AllLanded(old(dev.data[..]), Writes(plan))
          else r != 0 && dev.faults > old(dev.faults))
    ensures var p := s.info(HeaderOf(dev.blockSize, old(dev.data[..]), Primary)).state;
      var q := s.info(HeaderOf(dev.blockSize, old(dev.data[..]), Secondary)).state;
      p == BadCrc || q == BadCrc || (p == BadSignature && q == BadSignature) ==>
          r != 0 && dev.data[..] == old(dev.data[..])
    ensures ImagePrepare(s, dev.blockSize, old(dev.data[..]), stage) == Refused ==>
              r != 0 && dev.data[..] == old(dev.data[..])
    ensures ImagePrepare(s, dev.blockSize, old(dev.data[..]), stage) == Skipped ==> dev.data[..] == old(dev.data[..])
    ensures if SelectedBy(s, dev.blockSize, old(dev.data[..])) == Next(stage) then
              dev.switches == old(dev.switches)
                              + (if !env.ufs || !env.xbl || stage == Finalize then []
                                 else if stage == Main then [BackupBoot] else [NormalBoot])
              || (dev.switches == old(dev.switches) && dev.data[..] == old(dev.data[..]) && r != 0)
            else dev.switches == old(dev.switches)
  {
    ghost var d := dev.data[..];
    var ok := dev.Try();
    if !ok {
      return -1;
    }
    var p, q;
    r, p, q := GetStates(dev, env, s, HeaderOf(dev.blockSize, d, Primary), HeaderOf(dev.blockSize, d, Secondary));
    if r != 0 {
      return;
    }
    if p == BadCrc || q == BadCrc {
      return -1;
    }
    if p == BadSignature && q == BadSignature {
      return -1;
    }
    var internalStage := if p == Ok && q == Ok then Main else if p == BadSignature then Backup else Finalize;
    if Number(stage) == Number(internalStage) - 1 {
      return 0;
    }
    if stage != internalStage {
      return -1;
    }
    r := RunStage(dev, env, stage, s, d);
  }
}
