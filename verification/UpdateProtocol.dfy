/** The fail-safe update of gpt-utils.cpp as a machine on the two partition tables: what each
    stage writes, in order, and what is on the disk whenever a write fails or power is lost.

    The machine is stated over any header format that obeys a few laws (see Lawful); GptInstance.dfy
    proves them of the GPT header, for every checksum function. */
module UpdateProtocol {
  import opened Bytes
  import opened GptHeader

  /** What is read from a header block: whether its checksum can be calculated at all, whether its
      array can be worked on, its state, the stored array checksum, the entry size and the length of
      the array in bytes, where the array starts, the length of the block and how much of it the
      header checksum covers. */
  datatype Info = Info(
    readable: bool, valid: bool, state: State, sum: word, size: nat, bytes: nat, lba: nat, len: nat, covered: nat)

  datatype SwapResult = Nothing | SwappedTo(entries: seq<byte>)

  /** A header format, a checksum, and the boot-chain swap for a given entry size.  `rest` is
      what a header holds besides its signature and its two checksums. */
  datatype Setup = Setup(
    info: seq<byte> -> Info,
    rest: seq<byte> -> seq<byte>,
    mark: (seq<byte>, State) -> seq<byte>,
    store: (seq<byte>, word) -> seq<byte>,
    crc: seq<byte> -> word,
    swap: (seq<byte>, nat) -> SwapResult)

  ghost predicate Lawful(s: Setup) {
    && LengthLaw(s) && MarkLaw(s) && StoreLaw(s) && GoodHeaderLaw(s) && SwapLaw(s)
  }

  ghost predicate LengthLaw(s: Setup) {
    forall h {:trigger s.info(h)} :: s.info(h).readable ==> s.info(h).len == |h|
  }

  /** Setting a state is read back, and changes nothing else. */
  ghost predicate MarkLaw(s: Setup) {
    forall h, st {:trigger s.mark(h, st)} :: s.info(h).readable && st != BadCrc ==>
      s.info(s.mark(h, st)) == s.info(h).(state := st) && s.rest(s.mark(h, st)) == s.rest(h)
  }

  /** Storing an array checksum is read back, and changes nothing else of a sound header. */
  ghost predicate StoreLaw(s: Setup) {
    forall h, c {:trigger s.store(h, c)} :: s.info(h).readable && s.info(h).state != BadCrc ==>
      s.info(s.store(h, c)) == s.info(h).(sum := c) && s.rest(s.store(h, c)) == s.rest(h)
  }

  /** A good header is determined by what is read from it and the rest. */
  ghost predicate GoodHeaderLaw(s: Setup) {
    forall a, b {:trigger s.rest(a), s.rest(b)} ::
      s.info(a).readable && s.info(a).state == Ok && s.info(a) == s.info(b) && s.rest(a) == s.rest(b) ==> a == b
  }

  ghost predicate SwapLaw(s: Setup) {
    forall e, size :: s.swap(e, size).SwappedTo? ==> |s.swap(e, size).entries| == |e|
  }

  /** Primary and secondary header block and entries array. */
  datatype Tables = Tables(h1: seq<byte>, h2: seq<byte>, e1: seq<byte>, e2: seq<byte>)

  /** Both headers are readable and describe arrays of one size, held in e1 and e2. */
  ghost predicate WellFormed(s: Setup, t: Tables) {
    var p, q := s.info(t.h1), s.info(t.h2);
    && p.readable && q.readable && p.valid && q.valid && p.len == q.len && p.size == q.size
    && |t.e1| == |t.e2| == p.bytes == q.bytes
  }

  // ---------- What a call does ----------

  datatype Stage = Main | Backup | Finalize

  function Number(stage: Stage): int {
    match stage case Main => 1 case Backup => 2 case Finalize => 3
  }

  datatype Selection = Corrupt | Next(stage: Stage)

  /** The stage that the header states ask for. */
  function Select(p: State, q: State): Selection {
    if p == BadCrc || q == BadCrc then Corrupt
    else if p == BadSignature && q == BadSignature then Corrupt
    else if p == Ok && q == Ok then Next(Main)
    else if p == BadSignature then Next(Backup)
    else Next(Finalize)
  }

  /** Refuse: a non-zero code and no write.  Skip: success and no write.  Advance: success after
      writes that leave these tables, one after the other. */
  datatype Plan = Refuse | Skip | Advance(steps: seq<Tables>)

  /** gpt2_set_boot_chain: header of the secondary table first, then its array. */
  function ChainPlan(s: Setup, t: Tables, swap: bool): (plan: Plan)
    ensures plan.Advance? ==> |plan.steps| == 2
  {
    var swapped := s.swap(t.e1, s.info(t.h1).size);
    if s.crc(t.e1) != s.info(t.h1).sum then Refuse
    else if swap && swapped.Nothing? then Skip
    else
      var e := if swap then swapped.entries else t.e1;
      var t1 := t.(h2 := s.store(t.h2, s.crc(e)));
      Advance([t1, t1.(e2 := e)])
  }

  /** The writes of a stage once it is the selected one. */
  function StagePlan(s: Setup, t: Tables, stage: Stage): Plan {
    match stage
    case Main =>
      var c := ChainPlan(s, t, true);
      if c.Advance? then Advance(c.steps + [c.steps[1].(h1 := s.mark(t.h1, BadSignature))]) else c
    case Backup =>
      var t1 := t.(h1 := s.mark(t.h1, Ok));
      Advance([t1, t1.(h2 := s.mark(t.h2, BadSignature))])
    case Finalize =>
      var c := ChainPlan(s, t, false);
      if c.Advance? then Advance(c.steps + [c.steps[1].(h2 := s.mark(c.steps[1].h2, Ok))]) else c
  }

  function Selected(s: Setup, t: Tables): Selection {
    Select(s.info(t.h1).state, s.info(t.h2).state)
  }

  /** prepare_partitions: a stage one behind the selected one has been done already. */
  function PreparePlan(s: Setup, t: Tables, stage: Stage): Plan {
    match Selected(s, t)
    case Corrupt => Refuse
    case Next(selected) =>
      if Number(stage) == Number(selected) - 1 then Skip
      else if stage != selected then Refuse
      else StagePlan(s, t, stage)
  }

  function Steps(plan: Plan): seq<Tables> {
    if plan.Advance? then plan.steps else []
  }

  /** The tables after a call in which nothing fails. */
  function After(t: Tables, plan: Plan): Tables {
    if Steps(plan) == [] then t else Steps(plan)[|Steps(plan)| - 1]
  }

  // ---------- What a failing call can leave behind ----------

  function TornAt(a: Tables, b: Tables, k: nat): Tables
    requires k <= |a.e2| == |b.e2|
  {
    b.(e2 := b.e2[..k] + a.e2[k..])
  }

  /** A write of the entries array that stopped after its first k bytes.  Header blocks are
      written whole or not at all. */
  ghost predicate Torn(a: Tables, b: Tables, x: Tables) {
    && a.h1 == b.h1 && a.h2 == b.h2 && a.e1 == b.e1 && |a.e2| == |b.e2|
    && exists k :: 0 <= k <= |b.e2| && x == TornAt(a, b, k)
  }

  /** x is on the disk at some point of carrying out the steps from t. */
  ghost predicate Cut(t: Tables, steps: seq<Tables>, x: Tables)
    decreases |steps|
  {
    x == t || (steps != [] && (Torn(t, steps[0], x) || Cut(steps[0], steps[1..], x)))
  }

  ghost predicate OnDisk(s: Setup, t: Tables, stage: Stage, x: Tables) {
    Cut(t, Steps(PreparePlan(s, t, stage)), x)
  }

  // ---------- Crash safety ----------

  /** A copy that firmware can boot from. */
  ghost predicate Usable(s: Setup, h: seq<byte>, e: seq<byte>) {
    s.info(h).valid && s.info(h).state == Ok && s.crc(e) == s.info(h).sum
  }

  ghost predicate Consistent(s: Setup, t: Tables) {
    WellFormed(s, t) && Usable(s, t.h1, t.e1) && Usable(s, t.h2, t.e2)
  }

  /** The secondary table is usable and holds the swapped boot chain. */
  ghost predicate Switched(s: Setup, t: Tables) {
    Usable(s, t.h2, t.e2) && s.swap(t.e1, s.info(t.h1).size) == SwappedTo(t.e2)
  }

  /** Two headers that read the same but for their states and array checksums. */
  ghost predicate SameLayout(s: Setup, a: seq<byte>, b: seq<byte>) {
    s.info(a) == s.info(b).(state := s.info(a).state, sum := s.info(a).sum)
  }

  /** What every reachable disk keeps of the tables t0 that an update began with: the primary
      array and its checksum, the geometry and all else that the headers hold, no bad CRC, and, while
      the primary header is corrupted, a complete swapped secondary table. */
  ghost predicate Safe(s: Setup, t0: Tables, t: Tables) {
    && WellFormed(s, t) && SameLayout(s, t.h1, t0.h1) && SameLayout(s, t.h2, t0.h2)
    && s.rest(t.h1) == s.rest(t0.h1) && s.rest(t.h2) == s.rest(t0.h2)
    && t.e1 == t0.e1 && s.info(t.h1).sum == s.info(t0.h1).sum == s.crc(t.e1)
    && s.info(t.h1).state != BadCrc && s.info(t.h2).state != BadCrc
    && (s.info(t.h1).state == Ok || Switched(s, t))
  }

  /** A safe disk has a usable copy. */
  lemma SafeIsBootable(s: Setup, t0: Tables, t: Tables)
    requires Safe(s, t0, t)
    ensures Usable(s, t.h1, t.e1) || Usable(s, t.h2, t.e2)
  {
  }

  lemma {:induction false} CutOf(t: Tables, steps: seq<Tables>, x: Tables)
    requires Cut(t, steps, x) && |steps| <= 3
    ensures x == t || (|steps| > 0 && (Torn(t, steps[0], x) || x == steps[0]))
      || (|steps| > 1 && (Torn(steps[0], steps[1], x) || x == steps[1]))
      || (|steps| > 2 && (Torn(steps[1], steps[2], x) || x == steps[2]))
    decreases |steps|
  {
    if steps != [] && x != t && !Torn(t, steps[0], x) {
      CutOf(steps[0], steps[1..], x);
    }
  }

  /** While the primary header is good, any sound secondary header and any secondary array of
      the right length are safe. */
  lemma SafeWhilePrimaryGood(s: Setup, t0: Tables, t: Tables, x: Tables)
    requires Safe(s, t0, t) && s.info(t.h1).state == Ok
    requires x.h1 == t.h1 && x.e1 == t.e1 && |x.e2| == |t.e2|
    requires SameLayout(s, x.h2, t.h2) && s.rest(x.h2) == s.rest(t.h2) && s.info(x.h2).state != BadCrc
    ensures Safe(s, t0, x)
  {
  }

  /** Every disk that the rewrite of the secondary table can leave is safe. */
  lemma ChainIsSafe(s: Setup, t0: Tables, t: Tables, swap: bool, x: Tables)
    requires Lawful(s) && Safe(s, t0, t) && s.info(t.h1).state == Ok
    requires var c := ChainPlan(s, t, swap);
      c.Advance? && (Torn(t, c.steps[0], x) || x == c.steps[0] || Torn(c.steps[0], c.steps[1], x) || x == c.steps[1])
    ensures Safe(s, t0, x)
  {
    var e := if swap then s.swap(t.e1, s.info(t.h1).size).entries else t.e1;
    var h := s.store(t.h2, s.crc(e));
    assert s.info(h) == s.info(t.h2).(sum := s.crc(e));
    assert x.h2 == h;
    SafeWhilePrimaryGood(s, t0, t, x);
  }

  lemma MainIsSafe(s: Setup, t0: Tables, t: Tables, x: Tables)
    requires Lawful(s) && Safe(s, t0, t) && Selected(s, t) == Next(Main)
    requires Cut(t, Steps(StagePlan(s, t, Main)), x)
    ensures Safe(s, t0, x)
  {
    CutOf(t, Steps(StagePlan(s, t, Main)), x);
    var c := ChainPlan(s, t, true);
    if c.Advance? && x != t {
      var t2 := c.steps[1];
      var t3 := t2.(h1 := s.mark(t.h1, BadSignature));
      if x == t3 || Torn(t2, t3, x) {
        assert s.info(t3.h2) == s.info(t.h2).(sum := s.crc(t3.e2));
        assert Switched(s, t3);
      } else {
        ChainIsSafe(s, t0, t, true, x);
      }
    }
  }

  lemma BackupIsSafe(s: Setup, t0: Tables, t: Tables, x: Tables)
    requires Lawful(s) && Safe(s, t0, t) && Selected(s, t) == Next(Backup)
    requires Cut(t, Steps(StagePlan(s, t, Backup)), x)
    ensures Safe(s, t0, x)
  {
    CutOf(t, Steps(StagePlan(s, t, Backup)), x);
    var t1 := t.(h1 := s.mark(t.h1, Ok));
    assert Safe(s, t0, t1);
    if x != t {
      SafeWhilePrimaryGood(s, t0, t1, x);
    }
  }

  lemma FinalizeIsSafe(s: Setup, t0: Tables, t: Tables, x: Tables)
    requires Lawful(s) && Safe(s, t0, t) && Selected(s, t) == Next(Finalize)
    requires Cut(t, Steps(StagePlan(s, t, Finalize)), x)
    ensures Safe(s, t0, x)
  {
    CutOf(t, Steps(StagePlan(s, t, Finalize)), x);
    var c := ChainPlan(s, t, false);
    if c.Advance? && x != t {
      var t2 := c.steps[1];
      var t3 := t2.(h2 := s.mark(t2.h2, Ok));
      if x == t3 || Torn(t2, t3, x) {
        SafeWhilePrimaryGood(s, t0, t, x);
      } else {
        ChainIsSafe(s, t0, t, false, x);
      }
    }
  }

  /** One call, whatever fails in it, keeps the disk safe. */
  lemma CallIsSafe(s: Setup, t0: Tables, t: Tables, stage: Stage, x: Tables)
    requires Lawful(s) && Safe(s, t0, t) && OnDisk(s, t, stage, x)
    ensures Safe(s, t0, x)
  {
    if Selected(s, t) == Next(stage) {
      match stage
      case Main => MainIsSafe(s, t0, t, x);
      case Backup => BackupIsSafe(s, t0, t, x);
      case Finalize => FinalizeIsSafe(s, t0, t, x);
    }
  }

  /** x has the geometry of t. */
  ghost predicate SameShape(s: Setup, t: Tables, x: Tables) {
    && SameLayout(s, x.h1, t.h1) && SameLayout(s, x.h2, t.h2)
    && |x.h1| == |t.h1| && |x.h2| == |t.h2| && |x.e1| == |t.e1| && |x.e2| == |t.e2|
  }

  /** No call changes the geometry, whatever state the tables are in. */
  lemma CallKeepsShape(s: Setup, t: Tables, stage: Stage, x: Tables)
    requires Lawful(s) && WellFormed(s, t) && OnDisk(s, t, stage, x)
    ensures SameShape(s, t, x)
  {
    if Selected(s, t) == Next(stage) {
      CutOf(t, Steps(StagePlan(s, t, stage)), x);
      if stage != Backup && StagePlan(s, t, stage).Advance? {
        ChainKeepsShape(s, t, stage == Main);
      }
    }
  }

  lemma ChainKeepsShape(s: Setup, t: Tables, swap: bool)
    requires Lawful(s) && WellFormed(s, t) && s.info(t.h2).state != BadCrc && ChainPlan(s, t, swap).Advance?
    ensures SameShape(s, t, ChainPlan(s, t, swap).steps[0]) && SameShape(s, t, ChainPlan(s, t, swap).steps[1])
  {
    var e := if swap then s.swap(t.e1, s.info(t.h1).size).entries else t.e1;
    assert s.info(s.store(t.h2, s.crc(e))) == s.info(t.h2).(sum := s.crc(e));
  }

  /** One call of a run, and the tables it left: after success, a fault or a power loss. */
  datatype Call = Call(stage: Stage, left: Tables)

  /** Calls of any stages in any order, each of which may fail anywhere. */
  ghost predicate Run(s: Setup, t: Tables, calls: seq<Call>)
    decreases |calls|
  {
    calls == [] || (OnDisk(s, t, calls[0].stage, calls[0].left) && Run(s, calls[0].left, calls[1..]))
  }

  function End(t: Tables, calls: seq<Call>): Tables {
    if calls == [] then t else calls[|calls| - 1].left
  }

  lemma {:induction false} RunIsSafe(s: Setup, t0: Tables, t: Tables, calls: seq<Call>)
    requires Lawful(s) && Safe(s, t0, t) && Run(s, t, calls)
    ensures Safe(s, t0, End(t, calls))
    decreases calls
  {
    if calls != [] {
      CallIsSafe(s, t0, t, calls[0].stage, calls[0].left);
      RunIsSafe(s, t0, calls[0].left, calls[1..]);
    }
  }

  /** From consistent tables, at every point of every run, the disk is safe: some copy is usable,
      no header is GPT_BAD_CRC, and the primary array is as it was. */
  lemma CrashSafety(s: Setup, t0: Tables, calls: seq<Call>, stage: Stage, x: Tables)
    requires Lawful(s) && Consistent(s, t0) && Run(s, t0, calls) && OnDisk(s, End(t0, calls), stage, x)
    ensures x.e1 == t0.e1 && s.info(x.h1).state != BadCrc && s.info(x.h2).state != BadCrc
    ensures Usable(s, x.h1, x.e1) || Usable(s, x.h2, x.e2)
    ensures Safe(s, t0, x)
  {
    RunIsSafe(s, t0, t0, calls);
    CallIsSafe(s, t0, End(t0, calls), stage, x);
  }

  // ---------- Refinement of a three-state machine ----------

  /** Which tables the firmware accepts. */
  datatype Phase = BothGood | OnlySecondary | OnlyPrimary

  ghost predicate InPhase(s: Setup, t: Tables, phase: Phase) {
    var p, q := s.info(t.h1).state, s.info(t.h2).state;
    match phase
    case BothGood => p == Ok && q == Ok
    case OnlySecondary => p == BadSignature && q == Ok
    case OnlyPrimary => p == Ok && q == BadSignature
  }

  function StageIn(phase: Phase): Stage {
    match phase case BothGood => Main case OnlySecondary => Backup case OnlyPrimary => Finalize
  }

  function NextPhase(phase: Phase): Phase {
    match phase case BothGood => OnlySecondary case OnlySecondary => OnlyPrimary case OnlyPrimary => BothGood
  }

  /** The stage that leads into a phase; asking for it again changes nothing. */
  function DoneIn(phase: Phase): Stage {
    match phase case BothGood => Finalize case OnlySecondary => Main case OnlyPrimary => Backup
  }

  /** Every call either makes the abstract step, or writes nothing: it succeeds when the stage was
      the last one done (except FINALIZE) or MAIN has nothing to swap, and is refused otherwise. */
  lemma Refinement(s: Setup, t: Tables, phase: Phase, stage: Stage)
    requires Lawful(s) && WellFormed(s, t) && InPhase(s, t, phase)
    ensures var plan := PreparePlan(s, t, stage);
      var damaged := s.crc(t.e1) != s.info(t.h1).sum;
      var nothing := s.swap(t.e1, s.info(t.h1).size).Nothing?;
      if stage != StageIn(phase) then plan == if stage == DoneIn(phase) && stage != Finalize then Skip else Refuse
      else if stage != Backup && damaged then plan == Refuse
      else if stage == Main && nothing then plan == Skip
      else Steps(plan) != [] && WellFormed(s, After(t, plan)) && InPhase(s, After(t, plan), NextPhase(phase))
  {
    if stage == StageIn(phase) {
      match stage
      case Main =>
        var e := s.swap(t.e1, s.info(t.h1).size);
        if e.SwappedTo? {
          assert s.info(s.store(t.h2, s.crc(e.entries))) == s.info(t.h2).(sum := s.crc(e.entries));
        }
      case Backup =>
      case Finalize =>
        assert s.info(s.store(t.h2, s.crc(t.e1))) == s.info(t.h2).(sum := s.crc(t.e1));
    }
  }

  /** With both signatures bad, or a bad CRC on either side, every call is refused, whatever the
      headers say about their arrays. */
  lemma CorruptIsRefused(s: Setup, t: Tables, stage: Stage)
    requires s.info(t.h1).readable && s.info(t.h2).readable
    requires forall phase :: !InPhase(s, t, phase)
    ensures PreparePlan(s, t, stage) == Refuse
  {
    assert !InPhase(s, t, BothGood) && !InPhase(s, t, OnlySecondary) && !InPhase(s, t, OnlyPrimary);
  }

  /** Repeating MAIN or BACKUP after it succeeded writes nothing and succeeds. */
  lemma RepeatIsSkipped(s: Setup, t: Tables, stage: Stage)
    requires Lawful(s) && WellFormed(s, t) && stage != Finalize && Steps(PreparePlan(s, t, stage)) != []
    ensures PreparePlan(s, After(t, PreparePlan(s, t, stage)), stage) == Skip
  {
    var phase := if stage == Main then BothGood else OnlySecondary;
    assert InPhase(s, t, phase);
    Refinement(s, t, phase, stage);
    Refinement(s, After(t, PreparePlan(s, t, stage)), NextPhase(phase), stage);
  }

  // ---------- A whole update ----------

  /** Nothing to swap: MAIN writes nothing, so no run of calls changes the disk. */
  lemma {:induction false} NothingToSwap(s: Setup, t: Tables, calls: seq<Call>)
    requires InPhase(s, t, BothGood) && s.swap(t.e1, s.info(t.h1).size) == Nothing && Run(s, t, calls)
    ensures End(t, calls) == t
    decreases calls
  {
    if calls != [] {
      assert Steps(PreparePlan(s, t, calls[0].stage)) == [];
      NothingToSwap(s, t, calls[1..]);
    }
  }

  /** Both tables good and saying the same. */
  ghost predicate Settled(s: Setup, t: Tables) {
    Consistent(s, t) && t.e1 == t.e2
  }

  /** MAIN, BACKUP and FINALIZE, with nothing failing, leave the primary table as it was and the
      secondary with its entries.  They give back every byte of both tables, through three rewrites
      of the secondary header and two of the primary, exactly if the entries were equal before. */
  lemma WholeCycle(s: Setup, t: Tables)
    requires Lawful(s) && Consistent(s, t) && s.swap(t.e1, s.info(t.h1).size).SwappedTo?
    ensures var t1 := After(t, PreparePlan(s, t, Main));
      var t2 := After(t1, PreparePlan(s, t1, Backup));
      var t3 := After(t2, PreparePlan(s, t2, Finalize));
      && t1 != t && t2 != t1
      && Settled(s, t3) && t3.h1 == t.h1 && t3.e1 == t.e1
      && (t3 == t <==> t.e1 == t.e2)
  {
    var t1 := After(t, PreparePlan(s, t, Main));
    MainResult(s, t);
    var t2 := After(t1, PreparePlan(s, t1, Backup));
    assert t2 == Tables(s.mark(t1.h1, Ok), s.mark(t1.h2, BadSignature), t.e1, t1.e2);
    assert s.rest(t2.h1) == s.rest(t.h1) && s.info(t2.h1) == s.info(t.h1);
    assert InPhase(s, t2, OnlyPrimary);
    var t3 := After(t2, PreparePlan(s, t2, Finalize));
    var h := s.store(t2.h2, s.crc(t.e1));
    assert t3 == Tables(t.h1, s.mark(h, Ok), t.e1, t.e1);
    assert s.rest(t3.h2) == s.rest(h) == s.rest(t2.h2) == s.rest(t.h2)
        && s.info(t3.h2) == s.info(t.h2).(sum := s.crc(t.e1));
  }

  /** A MAIN that swapped leaves the secondary the only good table, with the swapped array. */
  lemma MainResult(s: Setup, t: Tables)
    requires Lawful(s) && WellFormed(s, t) && Steps(PreparePlan(s, t, Main)) != []
    ensures var t1 := After(t, PreparePlan(s, t, Main));
      && InPhase(s, t1, OnlySecondary) && WellFormed(s, t1)
      && t1.e1 == t.e1 && Switched(s, t1)
      && t1 == Tables(s.mark(t.h1, BadSignature), s.store(t.h2, s.crc(t1.e2)), t.e1, t1.e2)
  {
    assert Selected(s, t) == Next(Main);
    var e := s.swap(t.e1, s.info(t.h1).size).entries;
    assert s.info(s.store(t.h2, s.crc(e))) == s.info(t.h2).(sum := s.crc(e));
  }

  // ---------- Recovery ----------

  /** How many successful calls are still to be made. */
  function Distance(s: Setup, t: Tables): nat {
    match Selected(s, t)
    case Next(Backup) => 2
    case Next(Finalize) => 1
    case _ => 3
  }

  /** Calling the stage that the headers select, with nothing failing. */
  function Resume(s: Setup, t: Tables): Tables {
    match Selected(s, t)
    case Corrupt => t
    case Next(stage) => After(t, PreparePlan(s, t, stage))
  }

  function ResumeTimes(s: Setup, t: Tables, n: nat): Tables
    decreases n
  {
    if n == 0 then t else ResumeTimes(s, Resume(s, t), n - 1)
  }

  /** Each resumed stage comes one call nearer, and the last settles the disk. */
  lemma ResumeAdvances(s: Setup, t0: Tables, t: Tables)
    requires Lawful(s) && Safe(s, t0, t) && s.swap(t.e1, s.info(t.h1).size).SwappedTo?
    ensures Safe(s, t0, Resume(s, t))
    ensures if Distance(s, t) == 1 then Settled(s, Resume(s, t)) else Distance(s, Resume(s, t)) == Distance(s, t) - 1
  {
    var stage := Selected(s, t).stage;
    var plan := PreparePlan(s, t, stage);
    match stage
    case Main =>
      MainResult(s, t);
      LastIsOnDisk(t, Steps(plan));
    case Backup =>
      LastIsOnDisk(t, Steps(plan));
    case Finalize =>
      LastIsOnDisk(t, Steps(plan));
      assert s.info(s.store(t.h2, s.crc(t.e1))) == s.info(t.h2).(sum := s.crc(t.e1));
    CallIsSafe(s, t0, t, stage, Resume(s, t));
  }

  lemma {:induction false} LastIsOnDisk(t: Tables, steps: seq<Tables>)
    ensures Cut(t, steps, if steps == [] then t else steps[|steps| - 1])
    decreases |steps|
  {
    if steps != [] {
      LastIsOnDisk(steps[0], steps[1..]);
    }
  }

  /** From any point of any run over a disk with something to swap, resuming the selected stages
      settles the disk in at most three calls: both tables good, with the primary's entries.  If the
      entries were equal before the run, and only then, every byte of both tables is back. */
  lemma Convergence(s: Setup, t0: Tables, calls: seq<Call>, stage: Stage, x: Tables)
    requires Lawful(s) && Consistent(s, t0) && s.swap(t0.e1, s.info(t0.h1).size).SwappedTo?
    requires Run(s, t0, calls) && OnDisk(s, End(t0, calls), stage, x)
    ensures 1 <= Distance(s, x) <= 3
    ensures var y := ResumeTimes(s, x, Distance(s, x));
      Settled(s, y) && y.e1 == t0.e1 && y.h1 == t0.h1 && (y == t0 <==> t0.e1 == t0.e2)
  {
    CrashSafety(s, t0, calls, stage, x);
    ResumeSettles(s, t0, x);
    SettledIsRestored(s, t0, ResumeTimes(s, x, Distance(s, x)));
  }

  lemma {:induction false} ResumeSettles(s: Setup, t0: Tables, t: Tables)
    requires Lawful(s) && Safe(s, t0, t) && s.swap(t.e1, s.info(t.h1).size).SwappedTo?
    ensures var y := ResumeTimes(s, t, Distance(s, t));
      Safe(s, t0, y) && Settled(s, y)
    decreases Distance(s, t)
  {
    ResumeAdvances(s, t0, t);
    if Distance(s, t) == 1 {
      assert ResumeTimes(s, t, 1) == ResumeTimes(s, Resume(s, t), 0);
    } else {
      ResumeSettles(s, t0, Resume(s, t));
    }
  }

  /** A settled disk that a safe run has reached is the one it began with, up to the secondary
      array and its checksums. */
  lemma SettledIsRestored(s: Setup, t0: Tables, y: Tables)
    requires Lawful(s) && Consistent(s, t0) && Safe(s, t0, y) && Settled(s, y)
    ensures y.h1 == t0.h1 && y.e1 == t0.e1 && (y == t0 <==> t0.e1 == t0.e2)
  {
    assert s.info(y.h1) == s.info(t0.h1);
    if t0.e1 == t0.e2 {
      assert s.info(y.h2) == s.info(t0.h2);
    }
  }
}
