/** What the update protocol promises of disk images, of the names on them, and under damage. */
module UpdateResults {
  import opened Bytes
  import opened GptHeader
  import opened PartitionNames
  import opened BootChain
  import opened EntryArray
  import opened UpdateProtocol
  import opened DiskImage
  import opened GptInstance
  import opened ImagePlans
  import opened GoodDisks
  import ShiftAlgebra
  import Crc32

  // ---------- Images ----------

  /** A successful MAIN, BACKUP and FINALIZE on a consistent disk with something to swap change
      nothing but the secondary table, and give back the whole image, byte for byte, exactly if both
      tables had the same entries. */
  lemma WholeImageCycle(s: Setup, block: nat, d0: seq<byte>)
    requires Lawful(s) && GoodDisk(s, block, d0) && Consistent(s, Extract(LayoutOf(s, block, d0), d0))
    requires var t := Extract(LayoutOf(s, block, d0), d0);
      s.swap(t.e1, s.info(t.h1).size).SwappedTo?
    ensures var l := LayoutOf(s, block, d0);
      var d1 := Completed(s, block, d0, Main);
      var d2 := Completed(s, block, d1, Backup);
      var d3 := Completed(s, block, d2, Finalize);
      var t, t3 := Extract(l, d0), Extract(l, d3);
      && Settled(s, t3) && t3.h1 == t.h1 && t3.e1 == t.e1 && Shows(l, d0, t3, d3)
      && (d3 == d0 <==> t.e1 == t.e2) && d1 != d0 && d2 != d1
  {
    var l := LayoutOf(s, block, d0);
    var d1 := Completed(s, block, d0, Main);
    var d2 := Completed(s, block, d1, Backup);
    var d3 := Completed(s, block, d2, Finalize);
    GoodStep(s, block, l, d0, d0, Main);
    GoodStep(s, block, l, d0, d1, Backup);
    GoodStep(s, block, l, d0, d2, Finalize);
    WholeCycle(s, Extract(l, d0));
    SameImage(s, block, l, d0, d3);
  }

  /** A completed call on an image over base. */
  lemma GoodStep(s: Setup, block: nat, l: Layout, base: seq<byte>, d: seq<byte>, stage: Stage)
    requires Lawful(s) && GoodDisk(s, block, base) && LayoutOf(s, block, base) == l
    requires d == base || (GoodDisk(s, block, d) && LayoutOf(s, block, d) == l && Shows(l, base, Extract(l, d), d))
    ensures var d' := Completed(s, block, d, stage);
      && Extract(l, d') == After(Extract(l, d), PreparePlan(s, Extract(l, d), stage))
      && GoodDisk(s, block, d') && LayoutOf(s, block, d') == l && Shows(l, base, Extract(l, d'), d')
  {
    ShowsItself(l, base);
    GoodCompletion(s, block, d, stage);
    var d' := Completed(s, block, d, stage);
    GoodTransition(s, block, d, stage, d');
    ShowsThrough(l, base, Extract(l, d), d, Extract(l, d'), d');
  }

  /** An image over base is base exactly if it has its tables. */
  lemma SameImage(s: Setup, block: nat, l: Layout, base: seq<byte>, d: seq<byte>)
    requires GoodDisk(s, block, base) && LayoutOf(s, block, base) == l && |d| == |base|
    requires Shows(l, base, Extract(l, d), d)
    ensures d == base <==> Extract(l, d) == Extract(l, base)
  {
    ShowsItself(l, base);
    if Extract(l, d) == Extract(l, base) {
      Determined(l, base, Extract(l, base), base, d);
    }
  }

  datatype ImageCall = ImageCall(stage: Stage, left: seq<byte>)

  /** Calls of any stages in any order on one disk, each of which may fail or lose power anywhere. */
  ghost predicate ImageRun(s: Setup, block: nat, d: seq<byte>, calls: seq<ImageCall>)
    requires 2 * block <= |d|
    decreases |calls|
  {
    calls == [] ||
    (&& |calls[0].left| == |d| && Transition(s, block, d, calls[0].stage, calls[0].left)
     && ImageRun(s, block, calls[0].left, calls[1..]))
  }

  ghost function LastImage(d: seq<byte>, calls: seq<ImageCall>): seq<byte> {
    if calls == [] then d else calls[|calls| - 1].left
  }

  /** From a consistent disk every run of prepare_partitions leaves a disk with a usable table, and
      every byte outside the headers and the secondary array is as it was. */
  lemma ImageCrashSafety(s: Setup, block: nat, d: seq<byte>, calls: seq<ImageCall>)
    requires Lawful(s) && GoodDisk(s, block, d) && Consistent(s, Extract(LayoutOf(s, block, d), d))
    requires ImageRun(s, block, d, calls)
    ensures var l := LayoutOf(s, block, d);
      var t, d' := Extract(l, d), LastImage(d, calls);
      && |d'| == |d| && Safe(s, t, Extract(l, d')) && Extract(l, d').e1 == t.e1
      && (Usable(s, Extract(l, d').h1, t.e1) || Usable(s, Extract(l, d').h2, Extract(l, d').e2))
      && Shows(l, d, Extract(l, d'), d')
  {
    var l := LayoutOf(s, block, d);
    ShowsItself(l, d);
    RunImages(s, block, l, d, Extract(l, d), d, calls);
    SafeIsBootable(s, Extract(l, d), Extract(l, LastImage(d, calls)));
  }

  lemma {:induction false} RunImages(
    s: Setup, block: nat, l: Layout, base: seq<byte>, t0: Tables, d: seq<byte>, calls: seq<ImageCall>)
    requires Lawful(s) && GoodDisk(s, block, d) && LayoutOf(s, block, d) == l && |base| == l.total && Fits(l, t0)
    requires Safe(s, t0, Extract(l, d)) && Shows(l, base, Extract(l, d), d) && ImageRun(s, block, d, calls)
    ensures var d' := LastImage(d, calls);
      && GoodDisk(s, block, d') && LayoutOf(s, block, d') == l
      && Safe(s, t0, Extract(l, d')) && Shows(l, base, Extract(l, d'), d')
    decreases |calls|
  {
    if calls != [] {
      var d1 := calls[0].left;
      GoodTransition(s, block, d, calls[0].stage, d1);
      CallIsSafe(s, t0, Extract(l, d), calls[0].stage, Extract(l, d1));
      ShowsThrough(l, base, Extract(l, d), d, Extract(l, d1), d1);
      RunImages(s, block, l, base, t0, d1, calls[1..]);
    }
  }

  /** Calling the stage that the headers select, with nothing failing. */
  ghost function ResumeImage(s: Setup, block: nat, d: seq<byte>): (d': seq<byte>)
    requires 2 * block <= |d|
    ensures |d'| == |d|
  {
    match SelectedBy(s, block, d)
    case Corrupt => d
    case Next(stage) => Completed(s, block, d, stage)
  }

  ghost function ResumeImages(s: Setup, block: nat, d: seq<byte>, n: nat): (d': seq<byte>)
    requires 2 * block <= |d|
    ensures |d'| == |d|
    decreases n
  {
    if n == 0 then d else ResumeImages(s, block, ResumeImage(s, block, d), n - 1)
  }

  lemma ResumeStep(s: Setup, block: nat, l: Layout, base: seq<byte>, d: seq<byte>, d': seq<byte>)
    requires Lawful(s) && GoodDisk(s, block, base) && LayoutOf(s, block, base) == l
    requires GoodDisk(s, block, d) && LayoutOf(s, block, d) == l && Shows(l, base, Extract(l, d), d)
    requires d' == ResumeImage(s, block, d)
    ensures GoodDisk(s, block, d') && LayoutOf(s, block, d') == l && Shows(l, base, Extract(l, d'), d')
    ensures Extract(l, d') == Resume(s, Extract(l, d))
  {
    var _, t := GoodTables(s, block, d);
    if Selected(s, t).Next? {
      GoodStep(s, block, l, base, d, Selected(s, t).stage);
    }
  }

  lemma {:induction false} ResumeOfTables(s: Setup, block: nat, l: Layout, base: seq<byte>, d: seq<byte>, n: nat)
    requires Lawful(s) && GoodDisk(s, block, base) && LayoutOf(s, block, base) == l
    requires GoodDisk(s, block, d) && LayoutOf(s, block, d) == l && Shows(l, base, Extract(l, d), d)
    ensures var d' := ResumeImages(s, block, d, n);
      Extract(l, d') == ResumeTimes(s, Extract(l, d), n) && Shows(l, base, Extract(l, d'), d')
    decreases n
  {
    if n > 0 {
      var d' := ResumeImage(s, block, d);
      ResumeStep(s, block, l, base, d, d');
      ResumeOfTables(s, block, l, base, d', n - 1);
    }
  }

  /** After any run on a consistent disk with something to swap, stopped anywhere, at most three
      fault-free calls of the selected stages settle the disk.  They give back the image, byte for
      byte, exactly if both tables had the same entries before the run. */
  lemma ImageConvergence(s: Setup, block: nat, d: seq<byte>, calls: seq<ImageCall>)
    requires Lawful(s) && GoodDisk(s, block, d) && Consistent(s, Extract(LayoutOf(s, block, d), d))
    requires var t := Extract(LayoutOf(s, block, d), d);
      s.swap(t.e1, s.info(t.h1).size).SwappedTo?
    requires ImageRun(s, block, d, calls)
    ensures |LastImage(d, calls)| == |d|
    ensures var l, x := LayoutOf(s, block, d), LastImage(d, calls);
      var n := Distance(s, Extract(l, x));
      var y := ResumeImages(s, block, x, n);
      var t, u := Extract(l, d), Extract(l, y);
      && 1 <= n <= 3 && Settled(s, u) && u.h1 == t.h1 && u.e1 == t.e1 && Shows(l, d, u, y)
      && (y == d <==> t.e1 == t.e2)
  {
    var l, t := GoodTables(s, block, d);
    RunImages(s, block, l, d, t, d, calls);
    var x := LastImage(d, calls);
    SafeConverges(s, block, l, d, t, x, Distance(s, Extract(l, x)));
  }

  /** The same from any safe image. */
  lemma SafeConverges(s: Setup, block: nat, l: Layout, d: seq<byte>, t: Tables, x: seq<byte>, n: nat)
    requires Lawful(s) && GoodDisk(s, block, d) && LayoutOf(s, block, d) == l && t == Extract(l, d)
    requires Consistent(s, t) && s.swap(t.e1, s.info(t.h1).size).SwappedTo?
    requires GoodDisk(s, block, x) && LayoutOf(s, block, x) == l && Safe(s, t, Extract(l, x))
              && Shows(l, d, Extract(l, x), x)
    requires n == Distance(s, Extract(l, x))
    ensures var y := ResumeImages(s, block, x, n);
      var u := Extract(l, y);
      && 1 <= n <= 3 && Settled(s, u) && u.h1 == t.h1 && u.e1 == t.e1 && Shows(l, d, u, y)
      && (y == d <==> t.e1 == t.e2)
  {
    var y := ResumeImages(s, block, x, n);
    ResumeSettles(s, t, Extract(l, x));
    ResumeOfTables(s, block, l, d, x, n);
    SettledIsRestored(s, t, Extract(l, y));
    SameImage(s, block, l, d, y);
  }

  // ---------- Names after MAIN ----------

  /** After a MAIN that wrote, the secondary table is the only good one.  In it the first two entries
      that match a list name are where they were in the primary, with their first 128 bytes exchanged,
      unless the storage is UFS and the name begins with xbl.  The entries of such a name, and one
      that has no second, are as in the primary. */
  lemma NamesAfterMain(env: Env, t: Tables, name: string)
    requires WellFormed(SetupOf(env), t) && Steps(PreparePlan(SetupOf(env), t, Main)) != [] && name in env.names
    ensures var s := SetupOf(env);
      var t1 := After(t, PreparePlan(s, t, Main));
      var size := s.info(t.h1).size;
      && size >= PTN_ENTRY_SIZE
      && InPhase(s, t1, OnlySecondary) && Usable(s, t1.h2, t1.e2) && t1.e1 == t.e1
      && var es, fs := EntriesOf(t.e1, size), EntriesOf(t1.e2, size);
        && |fs| == |es|
        && (if !(env.ufs && "xbl" <= name) && TwoMatches(es, name) then NameSwapped(es, fs, name)
            else NameKept(es, fs, name))
  {
    var s := SetupOf(env);
    SetupRealizes(env);
    ReadInfo(s, env, t.h1);
    MainResult(s, t);
    var t1 := After(t, PreparePlan(s, t, Main));
    SwappedArray(env, t, t1.e2);
    NameAfterSwap(EntriesOf(t.e1, EntrySize(t.h1)), env.names, env.ufs, name);
  }

  lemma SwappedArray(env: Env, t: Tables, e: seq<byte>)
    requires WellFormed(SetupOf(env), t) && SoundHeader(t.h1)
    requires SetupOf(env).swap(t.e1, EntrySize(t.h1)) == SwappedTo(e)
    ensures EntriesOf(e, EntrySize(t.h1)) == SwapChain(EntriesOf(t.e1, EntrySize(t.h1)), env.names, env.ufs)
  {
    SwapOfWholeEntries(env.names, env.ufs, t.e1, EntrySize(t.h1), EntryCount(t.h1));
  }

  // ---------- Damage ----------

  /** The checksum that sparse_crc32 computes from seed 0, as gpt-utils.cpp uses zlib's. */
  ghost function Crc0(): Checksum {
    buf => Crc32.Crc(0, buf)
  }

  /** x is the image d with other bytes in the region. */
  ghost predicate DiffersIn(d: seq<byte>, x: seq<byte>, at: nat, len: nat) {
    |x| == |d| && at + len <= |d| && forall i {:trigger x[i]} :: 0 <= i < |d| && !(at <= i < at + len) ==> x[i] == d[i]
  }

  lemma OutsideIsSame(d: seq<byte>, x: seq<byte>, at: nat, len: nat, a: nat, b: nat)
    requires DiffersIn(d, x, at, len) && a <= b <= |d| && Apart(at, len, a, b - a)
    ensures x[a..b] == d[a..b]
  {
  }

  lemma InsideDiffers(d: seq<byte>, x: seq<byte>, at: nat, len: nat)
    requires DiffersIn(d, x, at, len) && x[at..at + len] == d[at..at + len]
    ensures x == d
  {
    forall i | 0 <= i < |d| ensures x[i] == d[i] {
      if at <= i < at + len {
        assert x[i] == x[at..at + len][i - at] == d[at..at + len][i - at];
      }
    }
  }

  /** Other bytes in the primary array leave the headers as they are. */
  lemma SameHeaders(s: Setup, block: nat, l: Layout, d: seq<byte>, x: seq<byte>)
    requires GoodDisk(s, block, d) && l == LayoutOf(s, block, d) && DiffersIn(d, x, l.prim, l.len)
    ensures HeaderOf(block, x, Primary) == HeaderOf(block, d, Primary)
    ensures HeaderOf(block, x, Secondary) == HeaderOf(block, d, Secondary)
    ensures LayoutOf(s, block, x) == l
  {
    OutsideIsSame(d, x, l.prim, l.len, block, block + block);
    OutsideIsSame(d, x, l.prim, l.len, |d| - block, |d|);
  }

  lemma BurstChangesSum(
    s: Setup, d: seq<byte>, x: seq<byte>, at: nat, len: nat, e: seq<byte>, f: seq<byte>, p: nat)
    requires s.crc == Crc0() && DiffersIn(d, x, at, len) && x != d && e == d[at..at + len] && f == x[at..at + len]
    requires ShiftAlgebra.DifferWithin(Crc32.Bits(e), Crc32.Bits(f), p, 32)
    ensures s.crc(f) != s.crc(e)
  {
    if s.crc(e) == s.crc(f) {
      BurstShows(e, f, p);
      InsideDiffers(d, x, at, len);
    }
  }

  /** Damage of up to 32 consecutive bits of the primary array of a good disk, at any alignment,
      makes MAIN and FINALIZE refuse, and whatever fails, no byte is written: d is the disk with the
      array e, x the damaged one with the array f, y what a call on it leaves. */
  lemma BurstIsRefused(
    s: Setup, block: nat, l: Layout, d: seq<byte>, e: seq<byte>, x: seq<byte>, f: seq<byte>, p: nat, stage: Stage,
    y: seq<byte>)
    requires s.crc == Crc0() && GoodDisk(s, block, d) && l == LayoutOf(s, block, d) && DiffersIn(d, x, l.prim, l.len)
    requires stage != Backup && SelectedBy(s, block, d) == Next(stage)
    requires e == d[l.prim..l.prim + l.len] && s.crc(e) == s.info(HeaderOf(block, d, Primary)).sum
    requires f == x[l.prim..l.prim + l.len] && ShiftAlgebra.DifferWithin(Crc32.Bits(e), Crc32.Bits(f), p, 32) && x != d
    requires Transition(s, block, x, stage, y)
    ensures ImagePrepare(s, block, x, stage) == Refused && y == x
  {
    BurstChangesSum(s, d, x, l.prim, l.len, e, f, p);
    OtherArrayIsRefused(s, block, l, d, x, f, stage, y);
  }

  lemma OtherArrayIsRefused(
    s: Setup, block: nat, l: Layout, d: seq<byte>, x: seq<byte>, f: seq<byte>, stage: Stage, y: seq<byte>)
    requires GoodDisk(s, block, d) && l == LayoutOf(s, block, d) && DiffersIn(d, x, l.prim, l.len)
    requires stage != Backup && SelectedBy(s, block, d) == Next(stage)
    requires f == x[l.prim..l.prim + l.len] && s.crc(f) != s.info(HeaderOf(block, d, Primary)).sum
    requires Transition(s, block, x, stage, y)
    ensures ImagePrepare(s, block, x, stage) == Refused && y == x
  {
    SameHeaders(s, block, l, d, x);
    DamageIsRefused(s, block, l, x, f, stage);
  }

  lemma DamageIsRefused(s: Setup, block: nat, l: Layout, x: seq<byte>, f: seq<byte>, stage: Stage)
    requires 2 * block <= |x| && l == LayoutOf(s, block, x) && l.prim + l.len <= |x| && f == x[l.prim..l.prim + l.len]
    requires s.crc(f) != s.info(HeaderOf(block, x, Primary)).sum
    requires stage != Backup && SelectedBy(s, block, x) == Next(stage)
    ensures ImagePrepare(s, block, x, stage) == Refused
  {
  }

  lemma BurstShows(e: seq<byte>, f: seq<byte>, p: nat)
    requires ShiftAlgebra.DifferWithin(Crc32.Bits(e), Crc32.Bits(f), p, 32) && Crc0()(e) == Crc0()(f)
    ensures e == f
  {
    Crc32.BitBurstDetected(0, e, f, p);
  }
}
