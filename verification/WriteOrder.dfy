/** In which order a stage writes: what a call that is stopped anywhere leaves of the states of the
    headers, and of the header and the array of the secondary table. */
module WriteOrder {
  import opened Bytes
  import opened GptHeader
  import opened UpdateProtocol
  import opened DiskImage
  import opened ImagePlans
  import opened GoodDisks

  /** The headers of x have the states that they have in t. */
  ghost predicate SameStates(s: Setup, t: Tables, x: Tables) {
    s.info(x.h1).state == s.info(t.h1).state && s.info(x.h2).state == s.info(t.h2).state
  }

  /** What MAIN and FINALIZE are to put in the secondary array. */
  ghost function NewArray(s: Setup, t: Tables, stage: Stage): seq<byte> {
    match if stage == Main then s.swap(t.e1, s.info(t.h1).size) else SwappedTo(t.e1)
    case Nothing => t.e2
    case SwappedTo(e) => e
  }

  /** Some bytes of b and then those of a. */
  ghost predicate Mixed(a: seq<byte>, b: seq<byte>, x: seq<byte>) {
    |x| == |a| == |b| && exists k :: 0 <= k <= |b| && x == b[..k] + a[k..]
  }

  ghost predicate Halfway(s: Setup, t: Tables, stage: Stage, x: Tables) {
    && x.h1 == t.h1 && x.e1 == t.e1 && SameStates(s, t, x) && Selected(s, x) == Next(stage)
    && (x.h2 == t.h2 || s.info(x.h2).sum == s.crc(NewArray(s, t, stage)))
    && (x.e2 != t.e2 ==> s.info(x.h2).sum == s.crc(NewArray(s, t, stage)))
    && Mixed(t.e2, NewArray(s, t, stage), x.e2)
  }

  /** A MAIN or FINALIZE that is stopped leaves both headers in the states that it found, so it stays
      due: the state of a header is changed by the last write alone, with the new array in place.  The
      array is begun only when the header holds its checksum. */
  lemma StoppedChain(s: Setup, t: Tables, stage: Stage, x: Tables)
    requires Lawful(s) && WellFormed(s, t) && Selected(s, t) == Next(stage) && stage != Backup
    requires OnDisk(s, t, stage, x) && x != t
    ensures Halfway(s, t, stage, x) || (x == After(t, PreparePlan(s, t, stage)) && x.e2 == NewArray(s, t, stage))
  {
    var plan := PreparePlan(s, t, stage);
    CutOf(t, Steps(plan), x);
    var e := NewArray(s, t, stage);
    var t1, t2, t3 := plan.steps[0], plan.steps[1], plan.steps[2];
    assert s.info(s.store(t.h2, s.crc(e))) == s.info(t.h2).(sum := s.crc(e));
    if Torn(t, t1, x) || x == t1 {
      assert x == t1;
      assert t.e2 == e[..0] + t.e2[0..];
    } else if Torn(t1, t2, x) || x == t2 {
      TornArray(t1, t2, x);
    } else {
      assert x == t3;
    }
  }

  lemma TornArray(a: Tables, b: Tables, x: Tables)
    requires |a.e2| == |b.e2| && (Torn(a, b, x) || x == b)
    ensures x == b.(e2 := x.e2) && Mixed(a.e2, b.e2, x.e2)
  {
    if x == b {
      assert b.e2 == b.e2[..|b.e2|] + a.e2[|b.e2|..];
    } else {
      var k :| 0 <= k <= |b.e2| && x == TornAt(a, b, k);
    }
  }

  /** Whatever FINALIZE leaves, a secondary header is good only with its array in place. */
  lemma FinalizeArmsLast(s: Setup, t: Tables, x: Tables)
    requires Lawful(s) && WellFormed(s, t) && InPhase(s, t, OnlyPrimary) && s.crc(t.e1) == s.info(t.h1).sum
    requires OnDisk(s, t, Finalize, x)
    ensures s.info(x.h2).state == Ok ==> Usable(s, x.h2, x.e2) && x.e2 == t.e1
    ensures s.info(x.h2).state != Ok ==> InPhase(s, x, OnlyPrimary)
  {
    if x != t {
      StoppedChain(s, t, Finalize, x);
      assert s.info(s.store(t.h2, s.crc(t.e1))) == s.info(t.h2).(sum := s.crc(t.e1));
    }
  }

  /** Whatever MAIN leaves, the primary header is corrupted only with the swapped array in place. */
  lemma MainDisarmsLast(s: Setup, t: Tables, x: Tables)
    requires Lawful(s) && WellFormed(s, t) && InPhase(s, t, BothGood) && OnDisk(s, t, Main, x)
    ensures if s.info(x.h1).state == Ok then InPhase(s, x, BothGood) && x.h1 == t.h1
            else InPhase(s, x, OnlySecondary) && s.swap(t.e1, s.info(t.h1).size) == SwappedTo(x.e2)
  {
    if x != t {
      StoppedChain(s, t, Main, x);
      MainResult(s, t);
    }
  }

  /** BACKUP makes the primary header good before it corrupts the secondary one, and touches no
      array: stopped in between, it leaves both headers good, so that MAIN is due. */
  lemma StoppedBackup(s: Setup, t: Tables, x: Tables)
    requires Lawful(s) && WellFormed(s, t) && InPhase(s, t, OnlySecondary) && OnDisk(s, t, Backup, x)
    ensures x.e1 == t.e1 && x.e2 == t.e2
    ensures x == t || (x.h2 == t.h2 && InPhase(s, x, BothGood))
      || (x == After(t, PreparePlan(s, t, Backup)) && InPhase(s, x, OnlyPrimary))
  {
    var steps := Steps(PreparePlan(s, t, Backup));
    CutOf(t, steps, x);
  }

  /** A stage that was due and did not complete stays due, unless it is a BACKUP stopped between its
      writes; and a header is made good or corrupted with the array in place that this calls for. */
  ghost predicate InOrder(s: Setup, t: Tables, stage: Stage, x: Tables) {
    && (|| Selected(s, x) == Next(stage)
        || x == After(t, PreparePlan(s, t, stage))
        || (stage == Backup && Selected(s, x) == Next(Main)))
    && (stage == Finalize && s.crc(t.e1) == s.info(t.h1).sum && s.info(x.h2).state == Ok ==> Usable(s, x.h2, x.e2))
    && (stage == Main && s.info(x.h1).state != Ok ==> s.swap(t.e1, s.info(t.h1).size) == SwappedTo(x.e2))
  }

  lemma StoppedInOrder(s: Setup, t: Tables, stage: Stage, x: Tables)
    requires Lawful(s) && WellFormed(s, t) && Selected(s, t) == Next(stage) && OnDisk(s, t, stage, x)
    ensures InOrder(s, t, stage, x)
  {
    if x != t {
      match stage
      case Main => StoppedChain(s, t, Main, x); MainDisarmsLast(s, t, x);
      case Backup => StoppedBackup(s, t, x);
      case Finalize =>
        StoppedChain(s, t, Finalize, x);
        if s.crc(t.e1) == s.info(t.h1).sum {
          FinalizeArmsLast(s, t, x);
        }
    }
  }

  /** The same of an image. */
  lemma StoppedImage(s: Setup, block: nat, d: seq<byte>, stage: Stage, d': seq<byte>)
    requires Lawful(s) && GoodDisk(s, block, d) && SelectedBy(s, block, d) == Next(stage)
    requires Transition(s, block, d, stage, d')
    ensures |d'| == |d|
    ensures SelectedBy(s, block, d') == Next(stage) || d' == Completed(s, block, d, stage)
      || (stage == Backup && SelectedBy(s, block, d') == Next(Main))
    ensures var l := LayoutOf(s, block, d);
      InOrder(s, Extract(l, d), stage, Extract(l, d'))
  {
    var l, t := GoodTables(s, block, d);
    GoodTransition(s, block, d, stage, d');
    var l', x := GoodTables(s, block, d');
    StoppedInOrder(s, t, stage, x);
    CompletedImage(s, block, l, d, stage, d');
  }

  /** An image that shows the tables of a completed call is the image after it. */
  lemma CompletedImage(s: Setup, block: nat, l: Layout, d: seq<byte>, stage: Stage, d': seq<byte>)
    requires Lawful(s) && GoodDisk(s, block, d) && l == LayoutOf(s, block, d) && Transition(s, block, d, stage, d')
    ensures |d'| == |d|
    ensures Extract(l, d') == After(Extract(l, d), PreparePlan(s, Extract(l, d), stage)) ==>
              d' == Completed(s, block, d, stage)
  {
    GoodTransition(s, block, d, stage, d');
    GoodCompletion(s, block, d, stage);
    var y := Completed(s, block, d, stage);
    GoodTransition(s, block, d, stage, y);
    if Extract(l, d') == Extract(l, y) {
      Determined(l, d, Extract(l, d'), d', y);
    }
  }
}
