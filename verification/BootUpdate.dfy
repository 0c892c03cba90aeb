/** prepare_boot_update: which block devices an update touches, and what each of them is left with. */
module BootUpdate {
  import opened Bytes
  import opened PartitionNames
  import opened UpdateProtocol
  import opened DiskImage
  import opened GptInstance
  import opened ImagePlans
  import opened GoodDisks
  import opened BlockDevice
  import opened UpdateStages
  import opened UpdateResults

  const MAX_LUNS := 26
  const PATH_TRUNCATE_LOC := 14
  const BLK_DEV_FILE := "/dev/block/mmcblk0"
  const BOOT_DEV_DIR := "/dev/block/bootdevice/by-name"

  // ---------- The LUN list ----------

  /** struct update_data. */
  class UpdateData {
    const lunList: array<string>
    var num: nat

    constructor ()
      ensures fresh(lunList) && lunList.Length == MAX_LUNS && num == 0
    {
      lunList := new string[MAX_LUNS](_ => "");
      num := 0;
    }

    ghost predicate Valid()
      reads this
    {
      lunList.Length == MAX_LUNS && num <= MAX_LUNS
    }

    ghost function Luns(): seq<string>
      reads this, lunList
      requires Valid()
    {
      lunList[..num]
    }

    /** add_lun_to_update_list.  A path is taken for a listed one if a listed one is a prefix of it;
        the check is skipped once 25 entries are in, and there must be room for one more. */
    method Add(path: string, accessible: bool) returns (r: int)
      requires Valid() && num < MAX_LUNS
      modifies this`num, lunList
      ensures Valid()
      ensures r == if accessible then 0 else -1
      ensures Luns() == Added(old(Luns()), path, accessible)
      ensures !accessible ==> Luns() == old(Luns())
      ensures accessible ==>
                if |old(Luns())| < 25 && exists known :: known in old(Luns()) && known <= path
                then Luns() == old(Luns())
                else Luns() == old(Luns()) + [path]
    {
      if !accessible {
        return -1;
      }
      if num == 0 {
        lunList[0] := path;
        num := 1;
      } else {
        var i := 0;
        while i < num && num < MAX_LUNS - 1
          invariant i <= num
          invariant forall j :: 0 <= j < i ==> !(lunList[j] <= path)
        {
          if lunList[i] <= path {
            assert Luns()[i] in Luns();
            return 0;
          }
          i := i + 1;
        }
        lunList[num] := path;
        num := num + 1;
      }
      return 0;
    }
  }

  ghost function Added(luns: seq<string>, path: string, accessible: bool): seq<string> {
    if !accessible || (|luns| < MAX_LUNS - 1 && exists i :: 0 <= i < |luns| && luns[i] <= path) then luns
    else luns + [path]
  }

  /** The links under by-name and the device nodes that can be accessed. */
  datatype System = System(links: map<string, string>, nodes: set<string>)

  datatype Resolution = Unresolved | Lun(path: string)

  /** The device that holds the backup of a partition; XBL is switched by other means. */
  function Resolve(sys: System, name: string): Resolution {
    var link := BOOT_DEV_DIR + "/" + name + BAK_EXT;
    if PTN_XBL <= name || link !in sys.links || |sys.links[link]| < PATH_TRUNCATE_LOC + 1 then Unresolved
    else Lun(sys.links[link][..PATH_TRUNCATE_LOC])
  }

  /** Some of the names resolves to this accessible device. */
  ghost predicate Needed(sys: System, names: seq<string>, path: string) {
    path in sys.nodes && exists n :: n in names && Resolve(sys, n) == Lun(path)
  }

  ghost predicate Distinct(luns: seq<string>) {
    forall i, j :: 0 <= i < j < |luns| ==> luns[i] != luns[j]
  }

  /** The list is in bounds, without duplicates, and has exactly the accessible devices that some
      name resolves to. */
  ghost predicate ListFor(sys: System, names: seq<string>, luns: seq<string>) {
    && |luns| <= |names| && Distinct(luns)
    && (forall p :: p in luns ==> |p| == PATH_TRUNCATE_LOC)
    && (forall p :: p in luns <==> Needed(sys, names, p))
  }

  /** One turn of the first loop of prepare_boot_update, on the list. */
  ghost function Considered(sys: System, luns: seq<string>, name: string): seq<string> {
    match Resolve(sys, name)
    case Unresolved => luns
    case Lun(path) => Added(luns, path, path in sys.nodes)
  }

  ghost function Collected(sys: System, names: seq<string>): seq<string> {
    if names == [] then [] else Considered(sys, Collected(sys, names[..|names| - 1]), names[|names| - 1])
  }

  lemma NeededGrows(sys: System, names: seq<string>, name: string, p: string)
    ensures Needed(sys, names + [name], p) <==>
              Needed(sys, names, p) || (p in sys.nodes && Resolve(sys, name) == Lun(p))
  {
    var all := names + [name];
    if Needed(sys, names, p) {
      var n :| n in names && Resolve(sys, n) == Lun(p);
      assert n in all;
    }
    assert name in all;
  }

  /** Among paths of one length a prefix is the whole. */
  lemma AddedMembers(luns: seq<string>, path: string, accessible: bool)
    requires |luns| < MAX_LUNS - 1 && forall p :: p in luns ==> |p| == |path|
    ensures var next := Added(luns, path, accessible);
      && (forall p :: p in next <==> p in luns || (accessible && p == path))
      && (next == luns || (next == luns + [path] && path !in luns))
  {
    if exists i :: 0 <= i < |luns| && luns[i] <= path {
      var i :| 0 <= i < |luns| && luns[i] <= path;
      assert luns[i] in luns && luns[i] == path;
    }
  }

  lemma ConsideredKeepsList(sys: System, names: seq<string>, name: string, luns: seq<string>)
    requires ListFor(sys, names, luns) && |luns| < MAX_LUNS - 1
    ensures ListFor(sys, names + [name], Considered(sys, luns, name))
  {
    forall p
      ensures Needed(sys, names + [name], p) <==>
                Needed(sys, names, p) || (p in sys.nodes && Resolve(sys, name) == Lun(p))
    {
      NeededGrows(sys, names, name, p);
    }
    if Resolve(sys, name).Lun? {
      var path := Resolve(sys, name).path;
      AddedMembers(luns, path, path in sys.nodes);
    }
  }

  /** The list that the first loop builds is in bounds, duplicate-free, and covers exactly the
      accessible devices that the names resolve to. */
  lemma {:induction false} CollectedIsList(sys: System, names: seq<string>)
    requires |names| < MAX_LUNS
    ensures ListFor(sys, names, Collected(sys, names))
  {
    if names != [] {
      var front, last := names[..|names| - 1], names[|names| - 1];
      CollectedIsList(sys, front);
      ConsideredKeepsList(sys, front, last, Collected(sys, front));
      assert front + [last] == names;
    }
  }

  method Consider(data: UpdateData, sys: System, name: string)
    requires data.Valid() && data.num < MAX_LUNS
    modifies data`num, data.lunList
    ensures data.Valid() && data.Luns() == Considered(sys, old(data.Luns()), name)
  {
    match Resolve(sys, name) {
      case Unresolved =>
      case Lun(path) =>
        var _ := data.Add(path, path in sys.nodes);
    }
  }

  method CollectLuns(sys: System, names: seq<string>) returns (data: UpdateData)
    requires |names| < MAX_LUNS
    ensures fresh(data) && fresh(data.lunList) && data.Valid() && ListFor(sys, names, data.Luns())
  {
    data := new UpdateData();
    assert data.Luns() == Collected(sys, []);
    for i := 0 to |names|
      invariant fresh(data) && fresh(data.lunList) && data.Valid()
      invariant data.Luns() == Collected(sys, names[..i]) && data.num <= i
    {
      Consider(data, sys, names[i]);
      assert names[..i + 1][..i] == names[..i];
    }
    assert names[..|names|] == names;
    CollectedIsList(sys, names);
  }

  // ---------- The update ----------

  /** What a set of devices holds: block sizes, images and fault counts, by path. */
  datatype Fleet = Fleet(blocks: map<string, nat>, images: map<string, seq<byte>>, faults: map<string, nat>)

  ghost function Storage(devs: map<string, Device>): set<array<byte>> {
    set p | p in devs :: devs[p].data
  }

  /** The devices hold what the fleet f says. */
  ghost predicate Held(devs: map<string, Device>, f: Fleet)
    reads devs.Values, Storage(devs)
  {
    && Keyed(f) && f.images.Keys == devs.Keys
    && forall p :: p in devs ==>
        devs[p].blockSize == f.blocks[p] && devs[p].data[..] == f.images[p] && devs[p].faults == f.faults[p]
  }

  /** The devices are distinct objects with distinct storage. */
  ghost predicate Separate(devs: map<string, Device>) {
    forall p, q :: p in devs && q in devs && p != q ==> devs[p] != devs[q] && devs[p].data != devs[q].data
  }

  ghost predicate Keyed(f: Fleet) {
    f.blocks.Keys == f.images.Keys == f.faults.Keys
  }

  /** What prepare_partitions asks of a disk, by block size and image, what it makes of one image,
      what of it when nothing fails, and what when it succeeds. */
  datatype CallSpec = CallSpec(
    good: (nat, seq<byte>) -> bool,
    did: (nat, seq<byte>, seq<byte>) -> bool,
    done: (nat, seq<byte>, seq<byte>) -> bool,
    ok: (nat, seq<byte>, seq<byte>) -> bool)

  /** d' is what one call makes of the image d. */
  ghost predicate Prepared(s: Setup, stage: Stage, block: nat, d: seq<byte>, d': seq<byte>) {
    2 * block <= |d| && Transition(s, block, d, stage, d')
  }

  /** d' is what one call makes of the image d when nothing fails. */
  ghost predicate Finished(s: Setup, stage: Stage, block: nat, d: seq<byte>, d': seq<byte>) {
    2 * block <= |d| && d' == Completed(s, block, d, stage)
  }

  /** The call on d was not refused, and it was carried out. */
  ghost predicate Succeeded(s: Setup, stage: Stage, block: nat, d: seq<byte>, d': seq<byte>) {
    2 * block <= |d| && ImagePrepare(s, block, d, stage) != Refused && d' == Completed(s, block, d, stage)
  }

  ghost function SpecOf(s: Setup, stage: Stage): CallSpec {
    CallSpec(
      (block: nat, d: seq<byte>) => Workable(s, block, d, stage),
      (block: nat, d: seq<byte>, d': seq<byte>) => Prepared(s, stage, block, d, d'),
      (block: nat, d: seq<byte>, d': seq<byte>) => Finished(s, stage, block, d, d'),
      (block: nat, d: seq<byte>, d': seq<byte>) => Succeeded(s, stage, block, d, d'))
  }

  ghost predicate Describes(c: CallSpec, s: Setup, stage: Stage) {
    && (forall block: nat, d {:trigger Workable(s, block, d, stage)} ::
        c.good(block, d) == Workable(s, block, d, stage))
    && (forall block: nat, d, d' {:trigger Prepared(s, stage, block, d, d')} ::
          c.did(block, d, d') == Prepared(s, stage, block, d, d'))
    && (forall block: nat, d, d' {:trigger Finished(s, stage, block, d, d')} ::
          c.done(block, d, d') == Finished(s, stage, block, d, d'))
    && (forall block: nat, d, d' {:trigger Succeeded(s, stage, block, d, d')} ::
          c.ok(block, d, d') == Succeeded(s, stage, block, d, d'))
  }

  /** One call, completed or not: what it made of the image, and whether it succeeded. */
  ghost predicate Attempt(c: CallSpec, block: nat, d: seq<byte>, d': seq<byte>, faulty: bool, r: int) {
    && c.did(block, d, d') && (!faulty ==> c.done(block, d, d'))
    && (r == 0 <==> !faulty && c.ok(block, d, d'))
  }

  /** prepare_partitions on an open device. */
  method PrepareOne(dev: Device, env: Env, stage: Stage, ghost s: Setup, ghost c: CallSpec)
    returns (r: int)
    requires Realizes(s, env) && Describes(c, s, stage) && c.good(dev.blockSize, dev.data[..])
    modifies dev`faults, dev`switches, dev.data
    ensures Attempt(c, dev.blockSize, old(dev.data[..]), dev.data[..], dev.faults != old(dev.faults), r)
  {
    ghost var d := dev.data[..];
    assert Workable(s, dev.blockSize, d, stage);
    r := PreparePartitions(dev, env, stage, s);
    assert Prepared(s, stage, dev.blockSize, d, dev.data[..]);
    assert dev.faults == old(dev.faults) ==> Finished(s, stage, dev.blockSize, d, dev.data[..]);
    assert r == 0 <==> dev.faults == old(dev.faults) && Succeeded(s, stage, dev.blockSize, d, dev.data[..]);
  }

  /** The listed devices are fit for the call; what is on the others does not matter. */
  ghost predicate GoodListed(c: CallSpec, luns: seq<string>, f: Fleet)
    requires Keyed(f)
  {
    forall p :: p in luns && p in f.images ==> c.good(f.blocks[p], f.images[p])
  }

  /** From fleet a to fleet b every listed device has been through one call on its image in a, which
      is finished unless it met a fault, and no other device has been touched. */
  ghost predicate Progress(c: CallSpec, luns: seq<string>, a: Fleet, b: Fleet)
    requires Keyed(a) && Keyed(b)
  {
    && a.blocks == b.blocks
    && forall p :: p in a.images ==>
      if p in luns then
        && c.did(a.blocks[p], a.images[p], b.images[p])
        && (b.faults[p] == a.faults[p] ==> c.done(a.blocks[p], a.images[p], b.images[p]))
      else b.images[p] == a.images[p] && b.faults[p] == a.faults[p]
  }

  /** Every listed path is a device on which the call met no fault and succeeded. */
  ghost predicate AllSucceeded(c: CallSpec, luns: seq<string>, a: Fleet, b: Fleet)
    requires Keyed(a) && Keyed(b) && a.blocks == b.blocks
  {
    forall p :: p in luns ==> p in a.images && b.faults[p] == a.faults[p] && c.ok(a.blocks[p], a.images[p], b.images[p])
  }

  /** y is x with one device changed. */
  ghost predicate Changed(x: Fleet, y: Fleet, path: string, d: seq<byte>, f: nat) {
    y == Fleet(x.blocks, x.images[path := d], x.faults[path := f])
  }

  /** Prepare the device at a path; the others hold what they held. */
  method PrepareDevice(
    path: string, devs: map<string, Device>, env: Env, stage: Stage, ghost s: Setup,
    ghost c: CallSpec, ghost x: Fleet) returns (r: int)
    requires Realizes(s, env) && Describes(c, s, stage) && Separate(devs) && Held(devs, x)
    requires path in devs && c.good(x.blocks[path], x.images[path])
    modifies devs[path], devs[path].data
    ensures var dev := devs[path];
      Attempt(c, dev.blockSize, x.images[path], dev.data[..], dev.faults != x.faults[path], r)
    ensures forall p :: p in devs && p != path ==>
                          devs[p].data[..] == x.images[p] && devs[p].faults == x.faults[p]
  {
    r := PrepareOne(devs[path], env, stage, s, c);
  }

  /** Open a path and prepare the device there; opening a path that is no device fails. */
  method PreparePath(
    path: string, devs: map<string, Device>, env: Env, stage: Stage, ghost s: Setup,
    ghost c: CallSpec, ghost x: Fleet) returns (r: int, ghost y: Fleet)
    requires Realizes(s, env) && Describes(c, s, stage) && Separate(devs) && Held(devs, x)
    requires path in devs ==> c.good(x.blocks[path], x.images[path])
    modifies devs.Values, Storage(devs)
    ensures Held(devs, y)
    ensures path !in devs ==> r != 0 && y == x
    ensures path in devs ==>
              && Changed(x, y, path, y.images[path], y.faults[path])
              && Attempt(c, x.blocks[path], x.images[path], y.images[path], y.faults[path] != x.faults[path], r)
  {
    y := x;
    r := -1;
    if path in devs {
      r := PrepareDevice(path, devs, env, stage, s, c, x);
      y := HeldAfter(path, devs, x);
    }
  }

  /** What the devices hold if it is x but for one of them. */
  lemma HeldAfter(path: string, devs: map<string, Device>, x: Fleet) returns (y: Fleet)
    requires Keyed(x) && x.images.Keys == devs.Keys && path in devs
    requires forall p :: p in devs ==> devs[p].blockSize == x.blocks[p]
    requires forall p :: p in devs && p != path ==>
                           devs[p].data[..] == x.images[p] && devs[p].faults == x.faults[p]
    ensures Held(devs, y) && y.images[path] == devs[path].data[..] && y.faults[path] == devs[path].faults
    ensures Changed(x, y, path, y.images[path], y.faults[path])
  {
    y := Fleet(x.blocks, x.images[path := devs[path].data[..]], x.faults[path := devs[path].faults]);
  }

  lemma ProgressStep(c: CallSpec, luns: seq<string>, i: nat, a: Fleet, x: Fleet, y: Fleet, d: seq<byte>, f: nat)
    requires Keyed(a) && Keyed(x) && Keyed(y) && Distinct(luns) && i < |luns| && luns[i] in x.images
    requires Progress(c, luns[..i], a, x) && Changed(x, y, luns[i], d, f)
    requires c.did(x.blocks[luns[i]], x.images[luns[i]], d)
    requires f == x.faults[luns[i]] ==> c.done(x.blocks[luns[i]], x.images[luns[i]], d)
    ensures a.blocks == y.blocks && Progress(c, luns[..i + 1], a, y)
    ensures AllSucceeded(c, luns[..i + 1], a, y) <==>
      AllSucceeded(c, luns[..i], a, x) && f == x.faults[luns[i]] && c.ok(x.blocks[luns[i]], x.images[luns[i]], d)
  {
    var path := luns[i];
    assert luns[..i + 1] == luns[..i] + [path];
    assert path !in luns[..i];
    assert path in a.blocks && path in a.images;
    assert x.images[path] == a.images[path] && x.faults[path] == a.faults[path];
    forall p | p in luns[..i] ensures p in x.images ==> y.images[p] == x.images[p] && y.faults[p] == x.faults[p] {
    }
  }

  /** One turn of the second loop of prepare_boot_update. */
  method PrepareNext(
    luns: seq<string>, i: nat, devs: map<string, Device>, env: Env, stage: Stage, ghost s: Setup,
    ghost c: CallSpec, ghost a: Fleet, ghost x: Fleet) returns (r: int, ghost y: Fleet)
    requires Realizes(s, env) && Describes(c, s, stage) && Separate(devs) && Distinct(luns) && i < |luns|
    requires Keyed(a) && GoodListed(c, luns, a) && Held(devs, x) && Progress(c, luns[..i], a, x)
    modifies devs.Values, Storage(devs)
    ensures Held(devs, y) && Progress(c, luns[..i + 1], a, y)
    ensures r == 0 && AllSucceeded(c, luns[..i], a, x) <==> AllSucceeded(c, luns[..i + 1], a, y)
  {
    assert luns[i] !in luns[..i];
    r, y := PreparePath(luns[i], devs, env, stage, s, c, x);
    if luns[i] in devs {
      ProgressStep(c, luns, i, a, x, y, y.images[luns[i]], y.faults[luns[i]]);
    } else {
      assert luns[..i + 1] == luns[..i] + [luns[i]];
    }
  }

  /** The second loop of prepare_boot_update: a device that fails does not stop the others. */
  method PrepareAll(
    luns: seq<string>, devs: map<string, Device>, env: Env, stage: Stage, ghost s: Setup,
    ghost c: CallSpec, ghost a: Fleet) returns (r: int, ghost b: Fleet)
    requires Realizes(s, env) && Describes(c, s, stage) && Separate(devs) && Distinct(luns)
    requires Held(devs, a) && GoodListed(c, luns, a)
    modifies devs.Values, Storage(devs)
    ensures Held(devs, b) && Progress(c, luns, a, b)
    ensures r == if AllSucceeded(c, luns, a, b) then 0 else -1
  {
    var isError := false;
    b := a;
    for i := 0 to |luns|
      invariant Held(devs, b) && Progress(c, luns[..i], a, b)
      invariant !isError <==> AllSucceeded(c, luns[..i], a, b)
    {
      var rcode;
      rcode, b := PrepareNext(luns, i, devs, env, stage, s, c, a, b);
      if rcode != 0 {
        isError := true;
      }
    }
    assert luns[..|luns|] == luns;
    r := if isError then -1 else 0;
  }

  lemma SpecDescribes(s: Setup, stage: Stage)
    ensures Describes(SpecOf(s, stage), s, stage)
  {
  }

  // ---------- What an update does to all devices ----------

  /** The devices that an update is for. */
  ghost predicate Due(env: Env, sys: System, path: string) {
    if env.ufs then Needed(sys, env.names, path) else path == BLK_DEV_FILE
  }

  /** From fleet a to fleet b every listed device has been through one call, completed or not, and no
      other device has been touched. */
  ghost predicate FleetStep(s: Setup, stage: Stage, luns: seq<string>, a: Fleet, b: Fleet) {
    && Keyed(a) && Keyed(b) && a.blocks == b.blocks
    && forall p :: p in a.images ==>
      if p in luns then Prepared(s, stage, a.blocks[p], a.images[p], b.images[p])
      else b.images[p] == a.images[p] && b.faults[p] == a.faults[p]
  }

  /** Every listed device that met no fault holds what the call makes of its image. */
  ghost predicate AllTried(s: Setup, stage: Stage, luns: seq<string>, a: Fleet, b: Fleet)
    requires Keyed(a) && Keyed(b) && a.blocks == b.blocks
  {
    forall p :: p in luns && p in a.images && b.faults[p] == a.faults[p] ==>
      Finished(s, stage, a.blocks[p], a.images[p], b.images[p])
  }

  /** On every listed device the call met no fault and succeeded. */
  ghost predicate FleetDone(s: Setup, stage: Stage, luns: seq<string>, a: Fleet, b: Fleet)
    requires Keyed(a) && Keyed(b) && a.blocks == b.blocks
  {
    forall p :: p in luns ==>
      p in a.images && b.faults[p] == a.faults[p] && Succeeded(s, stage, a.blocks[p], a.images[p], b.images[p])
  }

  lemma ProgressIsStep(c: CallSpec, s: Setup, stage: Stage, luns: seq<string>, a: Fleet, b: Fleet)
    requires Describes(c, s, stage) && Keyed(a) && Keyed(b) && Progress(c, luns, a, b)
    ensures FleetStep(s, stage, luns, a, b) && AllTried(s, stage, luns, a, b)
    ensures AllSucceeded(c, luns, a, b) <==> FleetDone(s, stage, luns, a, b)
  {
    forall p | p in a.images && p in luns ensures Prepared(s, stage, a.blocks[p], a.images[p], b.images[p]) {
      assert c.did(a.blocks[p], a.images[p], b.images[p]);
    }
    forall p | p in luns && p in a.images && b.faults[p] == a.faults[p]
      ensures Finished(s, stage, a.blocks[p], a.images[p], b.images[p])
    {
      assert c.done(a.blocks[p], a.images[p], b.images[p]);
    }
    forall p | p in a.images
      ensures c.ok(a.blocks[p], a.images[p], b.images[p]) == Succeeded(s, stage, a.blocks[p], a.images[p], b.images[p])
    {
    }
  }

  lemma DueIsGood(c: CallSpec, s: Setup, env: Env, sys: System, stage: Stage, luns: seq<string>, a: Fleet)
    requires Describes(c, s, stage) && Keyed(a) && Listed(env, sys, luns)
    requires forall p :: p in a.images && Due(env, sys, p) ==> Workable(s, a.blocks[p], a.images[p], stage)
    ensures GoodListed(c, luns, a)
  {
    forall p | p in luns && p in a.images ensures c.good(a.blocks[p], a.images[p]) {
      assert Due(env, sys, p);
      assert Workable(s, a.blocks[p], a.images[p], stage);
    }
  }

  /** The list has the devices that are due, each once. */
  ghost predicate Listed(env: Env, sys: System, luns: seq<string>) {
    Distinct(luns) && forall p :: p in luns <==> Due(env, sys, p)
  }

  /** prepare_boot_update: the eMMC disk, or every UFS LUN that holds a backup of a listed
      partition.  `a` is what the devices hold before, `b` after; a device that fails stops no other. */
  method PrepareBootUpdate(stage: Stage, env: Env, sys: System, devs: map<string, Device>, ghost a: Fleet)
    returns (r: int, ghost luns: seq<string>, ghost b: Fleet)
    requires |env.names| < MAX_LUNS && Separate(devs) && Held(devs, a)
    requires forall p :: p in a.images && Due(env, sys, p) ==> Workable(SetupOf(env), a.blocks[p], a.images[p], stage)
    modifies devs.Values, Storage(devs)
    ensures Held(devs, b) && Listed(env, sys, luns) && FleetStep(SetupOf(env), stage, luns, a, b)
    ensures AllTried(SetupOf(env), stage, luns, a, b)
    ensures r == 0 <==> FleetDone(SetupOf(env), stage, luns, a, b)
    ensures env.ufs ==> r == 0 || r == -1
  {
    ghost var s, c := SetupOf(env), SpecOf(SetupOf(env), stage);
    SetupRealizes(env);
    SpecDescribes(s, stage);
    if !env.ufs {
      luns := [BLK_DEV_FILE];
      DueIsGood(c, s, env, sys, stage, luns, a);
      r, b := PrepareEmmc(devs, env, stage, s, c, a);
    } else {
      var data := CollectLuns(sys, env.names);
      luns := data.Luns();
      DueIsGood(c, s, env, sys, stage, luns, a);
      r, b := PrepareAll(data.lunList[..data.num], devs, env, stage, s, c, a);
    }
    ProgressIsStep(c, s, stage, luns, a, b);
  }

  method PrepareEmmc(
    devs: map<string, Device>, env: Env, stage: Stage, ghost s: Setup, ghost c: CallSpec,
    ghost a: Fleet) returns (r: int, ghost b: Fleet)
    requires Realizes(s, env) && Describes(c, s, stage) && Separate(devs)
    requires Held(devs, a) && GoodListed(c, [BLK_DEV_FILE], a)
    modifies devs.Values, Storage(devs)
    ensures Held(devs, b) && Progress(c, [BLK_DEV_FILE], a, b)
    ensures r == 0 <==> AllSucceeded(c, [BLK_DEV_FILE], a, b)
  {
    r, b := PreparePath(BLK_DEV_FILE, devs, env, stage, s, c, a);
  }

  /** The by-name link of the backup of partition n leads to this target. */
  ghost predicate BackupLink(sys: System, n: string, target: string) {
    var link := "/dev/block/bootdevice/by-name/" + n + "bak";
    link in sys.links && sys.links[link] == target
  }

  /** On UFS a device is due exactly if it can be accessed and the link of the backup of some list name
      that does not begin with xbl leads to something behind its path of 14 characters. */
  lemma DueIff(env: Env, sys: System, p: string)
    ensures env.ufs ==>
              (Due(env, sys, p) <==>
               && p in sys.nodes && |p| == 14
               && exists n, r :: n in env.names && !("xbl" <= n) && r != "" && BackupLink(sys, n, p + r))
    ensures !env.ufs ==> (Due(env, sys, p) <==> p == "/dev/block/mmcblk0")
  {
    if env.ufs {
      forall n | n in env.names
        ensures Resolve(sys, n) == Lun(p) <==>
                  !("xbl" <= n) && |p| == 14 && exists r :: r != "" && BackupLink(sys, n, p + r)
      {
        ResolveIff(sys, n, p);
      }
    }
  }

  lemma ResolveIff(sys: System, n: string, p: string)
    ensures Resolve(sys, n) == Lun(p) <==>
              !("xbl" <= n) && |p| == 14 && exists r :: r != "" && BackupLink(sys, n, p + r)
  {
    var link := "/dev/block/bootdevice/by-name/" + n + "bak";
    assert BOOT_DEV_DIR + "/" + n + BAK_EXT == link by {
      assert BOOT_DEV_DIR + "/" == "/dev/block/bootdevice/by-name/";
    }
    if Resolve(sys, n) == Lun(p) {
      var target := sys.links[link];
      assert p + target[14..] == target;
      assert BackupLink(sys, n, p + target[14..]);
    }
    if r :| |p| == 14 && r != "" && BackupLink(sys, n, p + r) {
      assert (p + r)[..14] == p;
    }
  }

  /** Without such a link no device is listed, and an update changes nothing and succeeds. */
  lemma NoBackupLinks(s: Setup, env: Env, sys: System, stage: Stage, luns: seq<string>, a: Fleet, b: Fleet)
    requires env.ufs && forall n, target :: n in env.names && !("xbl" <= n) ==> !BackupLink(sys, n, target)
    requires Listed(env, sys, luns) && FleetStep(s, stage, luns, a, b)
    ensures luns == [] && b == a && FleetDone(s, stage, luns, a, b)
  {
    if luns != [] {
      DueIff(env, sys, luns[0]);
      assert false;
    }
  }

  // ---------- Repeating an update ----------

  /** Repeating MAIN or BACKUP on a disk on which the stage has been carried out leaves every byte
      alone, even if the repetition fails. */
  lemma RerunLeavesAdvanced(s: Setup, stage: Stage, block: nat, d: seq<byte>, d2: seq<byte>)
    requires Lawful(s) && stage != Finalize && GoodDisk(s, block, d) && Writes(ImagePrepare(s, block, d, stage)) != []
    requires Transition(s, block, Completed(s, block, d, stage), stage, d2)
    ensures d2 == Completed(s, block, d, stage)
    ensures ImagePrepare(s, block, Completed(s, block, d, stage), stage) == Skipped
  {
    var l, t := GoodTables(s, block, d);
    PrepareReflects(s, block, d, stage);
    RepeatIsSkipped(s, t, stage);
    GoodCompletion(s, block, d, stage);
    PrepareReflects(s, block, Completed(s, block, d, stage), stage);
  }

  /** The stage has been carried out on the device at p: its disk was good, the call met no fault and
      succeeded, and it wrote. */
  ghost predicate Advanced(s: Setup, stage: Stage, a: Fleet, b: Fleet, p: string)
    requires Keyed(a) && Keyed(b) && a.blocks == b.blocks && p in a.images
  {
    && GoodDisk(s, a.blocks[p], a.images[p]) && b.faults[p] == a.faults[p]
    && Succeeded(s, stage, a.blocks[p], a.images[p], b.images[p])
    && Writes(ImagePrepare(s, a.blocks[p], a.images[p], stage)) != []
  }

  /** MAIN or BACKUP for all devices, and then once more, as after a partial failure: the second
      update touches no device on which the first one carried the stage out, and none that is not on
      the list.  The same devices are listed both times. */
  lemma RerunOfFleet(
    s: Setup, env: Env, sys: System, stage: Stage, one: seq<string>, two: seq<string>, a: Fleet, b: Fleet, c: Fleet)
    requires Lawful(s) && stage != Finalize && Listed(env, sys, one) && Listed(env, sys, two)
    requires FleetStep(s, stage, one, a, b) && FleetStep(s, stage, two, b, c)
    ensures forall p :: p in one <==> p in two
    ensures forall p :: p in a.images && p !in one ==> c.images[p] == a.images[p] && c.faults[p] == a.faults[p]
    ensures forall p :: p in a.images && p in one && Advanced(s, stage, a, b, p) ==> c.images[p] == b.images[p]
  {
    forall p ensures p in one <==> p in two {
      assert p in one <==> Due(env, sys, p);
    }
    forall p | p in a.images && p in one && Advanced(s, stage, a, b, p) ensures c.images[p] == b.images[p] {
      RerunLeavesAdvanced(s, stage, a.blocks[p], a.images[p], c.images[p]);
    }
  }

  // ---------- Runs of updates ----------

  /** An update for all listed devices, and what it left: after success, faults or a power loss. */
  datatype FleetCall = FleetCall(stage: Stage, luns: seq<string>, left: Fleet)

  ghost predicate FleetRun(s: Setup, a: Fleet, calls: seq<FleetCall>)
    decreases |calls|
  {
    && Keyed(a)
    && (calls != [] ==>
        FleetStep(s, calls[0].stage, calls[0].luns, a, calls[0].left) && FleetRun(s, calls[0].left, calls[1..]))
  }

  ghost function LastFleet(a: Fleet, calls: seq<FleetCall>): Fleet
    decreases |calls|
  {
    if calls == [] then a else LastFleet(calls[0].left, calls[1..])
  }

  /** The run as one device sees it. */
  lemma {:induction false} RunOfDevice(s: Setup, a: Fleet, calls: seq<FleetCall>, p: string)
    returns (own: seq<ImageCall>)
    requires FleetRun(s, a, calls) && p in a.images && 2 * a.blocks[p] <= |a.images[p]|
    ensures var z := LastFleet(a, calls);
      && Keyed(z) && z.blocks == a.blocks && p in z.images
      && ImageRun(s, a.blocks[p], a.images[p], own) && LastImage(a.images[p], own) == z.images[p]
    decreases |calls|
  {
    own := [];
    if calls != [] {
      var b, d := calls[0].left, a.images[p];
      if p in calls[0].luns {
        CutKeepsLength(d, Writes(ImagePrepare(s, a.blocks[p], d, calls[0].stage)), b.images[p]);
      }
      var rest := RunOfDevice(s, b, calls[1..], p);
      if p in calls[0].luns {
        own := [ImageCall(calls[0].stage, b.images[p])] + rest;
        assert own[1..] == rest;
      } else {
        own := rest;
      }
    }
  }

  /** After any sequence of updates with any failures, each device that was consistent before keeps a
      usable table, and every byte outside its headers and its secondary array; if there is a pair to
      swap, at most three fault-free calls of the selected stages settle it, and give back its image
      exactly if its arrays were equal. */
  lemma FleetCrashSafety(s: Setup, a: Fleet, calls: seq<FleetCall>, p: string, block: nat, d: seq<byte>, x: seq<byte>)
    requires Lawful(s) && FleetRun(s, a, calls) && p in a.images && block == a.blocks[p] && d == a.images[p]
    requires GoodDisk(s, block, d) && Consistent(s, Extract(LayoutOf(s, block, d), d))
    requires p in LastFleet(a, calls).images && x == LastFleet(a, calls).images[p]
    ensures var l := LayoutOf(s, block, d);
      && |x| == |d| && Safe(s, Extract(l, d), Extract(l, x)) && Shows(l, d, Extract(l, x), x)
      && (Usable(s, Extract(l, x).h1, Extract(l, x).e1) || Usable(s, Extract(l, x).h2, Extract(l, x).e2))
      && (s.swap(Extract(l, d).e1, s.info(Extract(l, d).h1).size).SwappedTo? ==>
            var n := Distance(s, Extract(l, x));
            n <= 3 && (ResumeImages(s, block, x, n) == d <==> Extract(l, d).e1 == Extract(l, d).e2))
  {
    var own := RunOfDevice(s, a, calls, p);
    ImageCrashSafety(s, block, d, own);
    if s.swap(Extract(LayoutOf(s, block, d), d).e1, s.info(Extract(LayoutOf(s, block, d), d).h1).size).SwappedTo? {
      ImageConvergence(s, block, d, own);
    }
  }

  /** BACKUP does not succeed on a disk where MAIN had nothing to swap. */
  lemma MainSwapped(s: Setup, block: nat, d0: seq<byte>, d1: seq<byte>, d2: seq<byte>, t: Tables)
    requires Lawful(s) && GoodDisk(s, block, d0) && t == Extract(LayoutOf(s, block, d0), d0) && Consistent(s, t)
    requires Succeeded(s, Main, block, d0, d1) && Succeeded(s, Backup, block, d1, d2)
    ensures s.swap(t.e1, s.info(t.h1).size).SwappedTo?
  {
    if s.swap(t.e1, s.info(t.h1).size).Nothing? {
      PrepareReflects(s, block, d0, Main);
      PrepareReflects(s, block, d0, Backup);
    }
  }

  /** MAIN, BACKUP and FINALIZE that succeed for all listed devices settle each one that was
      consistent, give back its image, byte for byte, exactly if its arrays were equal, and touch no
      other device. */
  lemma FleetCycle(
    s: Setup, luns: seq<string>, a: Fleet, b: Fleet, c: Fleet, z: Fleet, p: string, block: nat, d: seq<byte>)
    requires Lawful(s) && FleetStep(s, Main, luns, a, b) && FleetDone(s, Main, luns, a, b)
    requires FleetStep(s, Backup, luns, b, c) && FleetDone(s, Backup, luns, b, c)
    requires FleetStep(s, Finalize, luns, c, z) && FleetDone(s, Finalize, luns, c, z)
    requires p in a.images && block == a.blocks[p] && d == a.images[p]
    ensures p !in luns ==> z.images[p] == d
    ensures p in luns && GoodDisk(s, block, d) && Consistent(s, Extract(LayoutOf(s, block, d), d)) ==>
              var l := LayoutOf(s, block, d);
              && |z.images[p]| == |d| && Settled(s, Extract(l, z.images[p]))
                  && Extract(l, z.images[p]).e1 == Extract(l, d).e1
              && (z.images[p] == d <==> Extract(l, d).e1 == Extract(l, d).e2)
  {
    if p in luns && GoodDisk(s, block, d) && Consistent(s, Extract(LayoutOf(s, block, d), d)) {
      MainSwapped(s, block, d, b.images[p], c.images[p], Extract(LayoutOf(s, block, d), d));
      WholeImageCycle(s, block, d);
    }
  }
}
