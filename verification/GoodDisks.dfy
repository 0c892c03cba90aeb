/** On a disk that is laid out well the writes of a call are the steps of the protocol on its two
    tables. */
module GoodDisks {
  import opened Bytes
  import opened GptHeader
  import opened UpdateProtocol
  import opened DiskImage
  import opened ImagePlans

  /** Making the write w to an image that shows the tables a gives one that shows b. */
  ghost predicate Reflects(l: Layout, w: Write, a: Tables, b: Tables)
    requires Regions(l)
  {
    || (w == HeaderWrite(l.block, b.h1) && b == a.(h1 := b.h1))
    || (w == HeaderWrite(l.total - l.block, b.h2) && b == a.(h2 := b.h2))
    || (w == ArrayWrite(l.sec, b.e2) && b == a.(e2 := b.e2))
  }

  ghost predicate AllReflect(l: Layout, ws: seq<Write>, t: Tables, steps: seq<Tables>)
    requires Regions(l)
    decreases |ws|
  {
    && |ws| == |steps|
    && (ws != [] ==>
        Fits(l, steps[0]) && Reflects(l, ws[0], t, steps[0]) && AllReflect(l, ws[1..], steps[0], steps[1..]))
  }

  lemma StepReflects(l: Layout, base: seq<byte>, d: seq<byte>, w: Write, a: Tables, b: Tables)
    requires Regions(l) && Fits(l, a) && Fits(l, b) && Shows(l, base, a, d) && Reflects(l, w, a, b)
    ensures OnDevice(d, w) && Shows(l, base, b, Landed(d, w))
  {
    if w == HeaderWrite(l.block, b.h1) && b == a.(h1 := b.h1) {
      WritePrimaryHeader(l, base, a, d, b.h1);
    } else if w == HeaderWrite(l.total - l.block, b.h2) && b == a.(h2 := b.h2) {
      WriteSecondaryHeader(l, base, a, d, b.h2);
    } else {
      WriteSecondaryArray(l, base, a, d, b.e2, |b.e2|);
      assert b.e2[..|b.e2|] == b.e2;
      assert TornAt(a, b, |b.e2|) == b;
    }
  }

  lemma PartReflects(l: Layout, base: seq<byte>, d: seq<byte>, w: Write, a: Tables, b: Tables, x: seq<byte>)
    returns (y: Tables)
    requires Regions(l) && Fits(l, a) && Fits(l, b) && Shows(l, base, a, d) && Reflects(l, w, a, b) && Partly(d, w, x)
    ensures Torn(a, b, y) && Fits(l, y) && Shows(l, base, y, x)
  {
    var k :| 0 <= k <= |w.bytes| && w.at + k <= |d| && x == Splice(d, w.at, w.bytes[..k]);
    WriteSecondaryArray(l, base, a, d, b.e2, k);
    y := TornAt(a, b, k);
  }

  /** Whatever is on the disk while the writes are made shows tables that the protocol allows. */
  lemma {:induction false} CutReflects(
    l: Layout, base: seq<byte>, d: seq<byte>, ws: seq<Write>, t: Tables, steps: seq<Tables>, x: seq<byte>)
    returns (y: Tables)
    requires Regions(l) && Fits(l, t) && Shows(l, base, t, d) && AllReflect(l, ws, t, steps) && ImageCut(d, ws, x)
    ensures Cut(t, steps, y) && Fits(l, y) && Shows(l, base, y, x)
    decreases |ws|
  {
    y := t;
    if x != d {
      if Partly(d, ws[0], x) {
        y := PartReflects(l, base, d, ws[0], t, steps[0], x);
      } else {
        StepReflects(l, base, d, ws[0], t, steps[0]);
        y := CutReflects(l, base, Landed(d, ws[0]), ws[1..], steps[0], steps[1..], x);
      }
    }
  }

  ghost function LastOf(t: Tables, steps: seq<Tables>): Tables {
    if steps == [] then t else steps[|steps| - 1]
  }

  /** All the writes together show the last tables. */
  lemma {:induction false} LandedReflects(
    l: Layout, base: seq<byte>, d: seq<byte>, ws: seq<Write>, t: Tables, steps: seq<Tables>)
    requires Regions(l) && Fits(l, t) && Shows(l, base, t, d) && AllReflect(l, ws, t, steps)
    ensures AllOnDevice(d, ws) && Fits(l, LastOf(t, steps)) && Shows(l, base, LastOf(t, steps), AllLanded(d, ws))
    decreases |ws|
  {
    if ws != [] {
      StepReflects(l, base, d, ws[0], t, steps[0]);
      LandedReflects(l, base, Landed(d, ws[0]), ws[1..], steps[0], steps[1..]);
      assert forall k :: 0 < k < |ws| ==> ws[k] == ws[1..][k - 1];
    }
  }

  lemma {:induction false} ReflectAppend(l: Layout, ws: seq<Write>, t: Tables, steps: seq<Tables>, w: Write, b: Tables)
    requires Regions(l) && AllReflect(l, ws, t, steps) && Fits(l, b) && Reflects(l, w, LastOf(t, steps), b)
    ensures AllReflect(l, ws + [w], t, steps + [b])
    decreases |ws|
  {
    if ws == [] {
      assert [w][1..] == [] && [b][1..] == [];
      assert ws + [w] == [w] && steps + [b] == [b];
    } else {
      assert (ws + [w])[1..] == ws[1..] + [w] && (steps + [b])[1..] == steps[1..] + [b];
      ReflectAppend(l, ws[1..], steps[0], steps[1..], w, b);
    }
  }

  // ---------- The plans agree ----------

  ghost predicate SameKind(c: ImagePlan, p: Plan) {
    (c.Refused? <==> p.Refuse?) && (c.Skipped? <==> p.Skip?)
  }

  /** The tables of a good disk, and how they lie. */
  lemma GoodTables(s: Setup, block: nat, d: seq<byte>) returns (l: Layout, t: Tables)
    requires GoodDisk(s, block, d)
    ensures l == LayoutOf(s, block, d) && Regions(l) && l.total == |d| && l.block == block && t == Extract(l, d)
    ensures Mounted(s, l, t) && Shows(l, d, t, d) && Readable(s, block, d)
    ensures HeaderOf(block, d, Primary) == t.h1 && HeaderOf(block, d, Secondary) == t.h2
    ensures d[l.prim..l.prim + l.len] == t.e1 && l.len == s.info(t.h1).bytes
  {
    l := LayoutOf(s, block, d);
    t := Extract(l, d);
    ShowsItself(l, d);
  }

  lemma ChainReflects(s: Setup, block: nat, d: seq<byte>, swap: bool)
    requires Lawful(s) && GoodDisk(s, block, d) && s.info(HeaderOf(block, d, Secondary)).state != BadCrc
    ensures var l := LayoutOf(s, block, d);
      var t := Extract(l, d);
      && SameKind(ImageChain(s, block, d, swap), ChainPlan(s, t, swap))
      && AllReflect(l, Writes(ImageChain(s, block, d, swap)), t, Steps(ChainPlan(s, t, swap)))
  {
    var l, t := GoodTables(s, block, d);
    var c, p := ImageChain(s, block, d, swap), ChainPlan(s, t, swap);
    if c.Writing? {
      ChainKeepsShape(s, t, swap);
      var ws, steps := c.writes, p.steps;
      assert ws == [ws[0], ws[1]] && steps == [steps[0], steps[1]];
      assert Reflects(l, ws[0], t, steps[0]) && Reflects(l, ws[1], steps[0], steps[1]);
      assert AllReflect(l, [ws[1]], steps[0], [steps[1]]) by {
        assert [ws[1]][1..] == [] && [steps[1]][1..] == [];
      }
      assert ws[1..] == [ws[1]] && steps[1..] == [steps[1]];
    }
  }

  ghost function WithHeader(t: Tables, inst: Instance, h: seq<byte>): Tables {
    if inst == Primary then t.(h1 := h) else t.(h2 := h)
  }

  ghost function HeaderIn(t: Tables, inst: Instance): seq<byte> {
    if inst == Primary then t.h1 else t.h2
  }

  /** A header that is marked after some writes is the one that the tables show by then. */
  lemma MarkReflects(
    s: Setup, l: Layout, d: seq<byte>, ws: seq<Write>, t: Tables, steps: seq<Tables>, inst: Instance, st: State)
    requires Lawful(s) && Mounted(s, l, t) && |d| == l.total && Shows(l, d, t, d)
    requires AllReflect(l, ws, t, steps) && st != BadCrc
    requires s.info(HeaderIn(LastOf(t, steps), inst)).readable
    ensures var u := LastOf(t, steps);
      var w := Marking(s, l.block, AllLanded(d, ws), inst, st);
      && HeaderOf(l.block, AllLanded(d, ws), inst) == HeaderIn(u, inst)
      && AllReflect(l, ws + [w], t, steps + [WithHeader(u, inst, s.mark(HeaderIn(u, inst), st))])
  {
    var u, x := LastOf(t, steps), AllLanded(d, ws);
    LandedReflects(l, d, d, ws, t, steps);
    MarkShown(s, l, d, u, x, inst, st);
    var h := s.mark(HeaderIn(u, inst), st);
    ReflectAppend(l, ws, t, steps, Marking(s, l.block, x, inst, st), WithHeader(u, inst, h));
  }

  /** Marking a header on an image that shows the tables u is marking it in u. */
  lemma MarkShown(s: Setup, l: Layout, base: seq<byte>, u: Tables, x: seq<byte>, inst: Instance, st: State)
    requires Lawful(s) && Regions(l) && Fits(l, u) && Shows(l, base, u, x) && st != BadCrc
    requires s.info(HeaderIn(u, inst)).readable
    ensures var v := WithHeader(u, inst, s.mark(HeaderIn(u, inst), st));
      && HeaderOf(l.block, x, inst) == HeaderIn(u, inst)
      && Fits(l, v) && Reflects(l, Marking(s, l.block, x, inst, st), u, v)
  {
    ShowsHeaders(l, base, u, x);
    var h := s.mark(HeaderIn(u, inst), st);
    assert s.info(h) == s.info(HeaderIn(u, inst)).(state := st);
  }

  /** What a call writes to a good disk is what the protocol says. */
  lemma PrepareReflects(s: Setup, block: nat, d: seq<byte>, stage: Stage)
    requires Lawful(s) && GoodDisk(s, block, d)
    ensures Workable(s, block, d, stage)
    ensures var l := LayoutOf(s, block, d);
      var t := Extract(l, d);
      && SameKind(ImagePrepare(s, block, d, stage), PreparePlan(s, t, stage))
      && AllReflect(l, Writes(ImagePrepare(s, block, d, stage)), t, Steps(PreparePlan(s, t, stage)))
  {
    var l, t := GoodTables(s, block, d);
    if Selected(s, t) == Next(stage) {
      if stage == Backup {
        BackupReflects(s, l, d, t);
      } else {
        ChainStageReflects(s, block, d, stage);
      }
    }
  }

  lemma BackupReflects(s: Setup, l: Layout, d: seq<byte>, t: Tables)
    requires Lawful(s) && Mounted(s, l, t) && |d| == l.total && Shows(l, d, t, d)
    ensures AllReflect(l, Writes(ImageStage(s, l.block, d, Backup)), t, Steps(StagePlan(s, t, Backup)))
  {
    ShowsHeaders(l, d, t, d);
    MarkReflects(s, l, d, [], t, [], Primary, Ok);
    var w, t1 := Marking(s, l.block, d, Primary, Ok), t.(h1 := s.mark(t.h1, Ok));
    assert [] + [w] == [w] && [] + [t1] == [t1];
    MarkReflects(s, l, d, [w], t, [t1], Secondary, BadSignature);
    var w2 := Marking(s, l.block, Landed(d, w), Secondary, BadSignature);
    assert [w][1..] == [] && AllLanded(d, [w]) == Landed(d, w);
    assert [w] + [w2] == [w, w2];
  }

  lemma ChainStageReflects(s: Setup, block: nat, d: seq<byte>, stage: Stage)
    requires Lawful(s) && GoodDisk(s, block, d) && SelectedBy(s, block, d) == Next(stage) && stage != Backup
    ensures Workable(s, block, d, stage)
    ensures var l := LayoutOf(s, block, d);
      var t := Extract(l, d);
      && SameKind(ImageStage(s, block, d, stage), StagePlan(s, t, stage))
      && AllReflect(l, Writes(ImageStage(s, block, d, stage)), t, Steps(StagePlan(s, t, stage)))
  {
    var l, t := GoodTables(s, block, d);
    var swap := stage == Main;
    ChainReflects(s, block, d, swap);
    var c, p := ImageChain(s, block, d, swap), ChainPlan(s, t, swap);
    if c.Writing? {
      ChainKeepsShape(s, t, swap);
      var inst, st := if swap then Primary else Secondary, if swap then BadSignature else Ok;
      MarkReflects(s, l, d, c.writes, t, p.steps, inst, st);
    }
  }

  // ---------- What a call makes of a good disk ----------

  /** d' is on the device when a call on d ends, completed or not. */
  ghost predicate Transition(s: Setup, block: nat, d: seq<byte>, stage: Stage, d': seq<byte>)
    requires 2 * block <= |d|
  {
    ImageCut(d, Writes(ImagePrepare(s, block, d, stage)), d')
  }

  /** The image after a call in which nothing fails. */
  ghost function Completed(s: Setup, block: nat, d: seq<byte>, stage: Stage): (d': seq<byte>)
    requires 2 * block <= |d|
    ensures |d'| == |d|
  {
    AllLanded(d, Writes(ImagePrepare(s, block, d, stage)))
  }

  /** The tables on a good disk after a call, completed or not, are those of the protocol; no other
      byte has changed, and the disk is good in the same places. */
  lemma GoodTransition(s: Setup, block: nat, d: seq<byte>, stage: Stage, d': seq<byte>)
    requires Lawful(s) && GoodDisk(s, block, d) && Transition(s, block, d, stage, d')
    ensures var l := LayoutOf(s, block, d);
      && |d'| == |d| && OnDisk(s, Extract(l, d), stage, Extract(l, d')) && Shows(l, d, Extract(l, d'), d')
      && GoodDisk(s, block, d') && LayoutOf(s, block, d') == l
  {
    var l, t := GoodTables(s, block, d);
    PrepareReflects(s, block, d, stage);
    var y := CutReflects(l, d, d, Writes(ImagePrepare(s, block, d, stage)), t, Steps(PreparePlan(s, t, stage)), d');
    CallKeepsShape(s, t, stage, y);
    SameShapeMounted(s, l, t, y);
    StillGood(s, l, d, y, d');
  }

  lemma GoodCompletion(s: Setup, block: nat, d: seq<byte>, stage: Stage)
    requires Lawful(s) && GoodDisk(s, block, d)
    ensures var l := LayoutOf(s, block, d);
      var t, d' := Extract(l, d), Completed(s, block, d, stage);
      && Transition(s, block, d, stage, d') && Extract(l, d') == After(t, PreparePlan(s, t, stage))
      && GoodDisk(s, block, d') && LayoutOf(s, block, d') == l
  {
    var l, t := GoodTables(s, block, d);
    PrepareReflects(s, block, d, stage);
    LandedReflects(l, d, d, Writes(ImagePrepare(s, block, d, stage)), t, Steps(PreparePlan(s, t, stage)));
    LandedIsCut(d, Writes(ImagePrepare(s, block, d, stage)));
    GoodTransition(s, block, d, stage, Completed(s, block, d, stage));
    ShowsTables(l, d, After(t, PreparePlan(s, t, stage)), Completed(s, block, d, stage));
  }
}
