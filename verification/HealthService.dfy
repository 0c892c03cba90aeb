/** HealthServiceDefault.cpp: the counters are backed up whenever the battery has been charged by
    twenty percent, in as many steps as it takes. */
module HealthService {
  import CycleCount

  const BACKUP_TRIGGER := 20

  /** saved_soc, soc_inc and is_first. */
  datatype Trigger = Trigger(savedSoc: int, socInc: int, isFirst: bool)

  const START := Trigger(0, 0, true)

  function Rising(t: Trigger, level: int): int {
    if t.isFirst || level <= t.savedSoc then 0 else level - t.savedSoc
  }

  function Fires(t: Trigger, level: int): bool {
    !t.isFirst && t.socInc + Rising(t, level) >= BACKUP_TRIGGER
  }

  /** One call of cycle_count_backup. */
  function Tick(t: Trigger, level: int): Trigger {
    Trigger(level, if Fires(t, level) then 0 else t.socInc + Rising(t, level), false)
  }

  class BackupTrigger {
    var savedSoc: int
    var socInc: int
    var isFirst: bool
    const counters: CycleCount.CycleCountBackupRestore

    constructor (counters: CycleCount.CycleCountBackupRestore)
      ensures this.counters == counters && Current() == START
    {
      savedSoc, socInc, isFirst := 0, 0, true;
      this.counters := counters;
    }

    ghost function Current(): Trigger
      reads this
    {
      Trigger(savedSoc, socInc, isFirst)
    }

    /** cycle_count_backup: the counters are backed up exactly when the trigger fires. */
    method CycleCountBackup(level: int) returns (r: int)
      requires counters.Valid()
      modifies this, counters.swBins, counters.hwBins, counters.storage, counters.sram
      ensures r == 0 && Current() == Tick(old(Current()), level)
      ensures !Fires(old(Current()), level) ==>
                counters.Current() == old(counters.Current()) && counters.Faults() == old(counters.Faults())
      ensures Fires(old(Current()), level) && counters.Faults() == old(counters.Faults()) ==>
                counters.Current() == CycleCount.BackedUp(old(counters.Current()))
    {
      if isFirst {
        isFirst := false;
        savedSoc := level;
        return 0;
      }
      if level > savedSoc {
        socInc := socInc + level - savedSoc;
      }
      savedSoc := level;
      if socInc >= BACKUP_TRIGGER {
        counters.Backup();
        socInc := 0;
      }
      return 0;
    }
  }

  // ---------- Conservation over whole runs ----------

  function After(t: Trigger, levels: seq<int>): Trigger
    decreases |levels|
  {
    if levels == [] then t else After(Tick(t, levels[0]), levels[1..])
  }

  /** How many backups the levels cause. */
  function Backups(t: Trigger, levels: seq<int>): nat
    decreases |levels|
  {
    if levels == [] then 0 else (if Fires(t, levels[0]) then 1 else 0) + Backups(Tick(t, levels[0]), levels[1..])
  }

  /** The rise that the backups have cleared from the account. */
  function Flushed(t: Trigger, levels: seq<int>): int
    decreases |levels|
  {
    if levels == [] then 0
    else
      var paid := if Fires(t, levels[0]) then t.socInc + Rising(t, levels[0]) else 0;
      paid + Flushed(Tick(t, levels[0]), levels[1..])
  }

  /** The sum of all rises from one level to the next. */
  function TotalRise(levels: seq<int>): nat
    decreases |levels|
  {
    if |levels| <= 1 then 0
    else (if levels[1] > levels[0] then levels[1] - levels[0] else 0) + TotalRise(levels[1..])
  }

  ghost predicate Running(t: Trigger) {
    !t.isFirst && 0 <= t.socInc < BACKUP_TRIGGER
  }

  ghost predicate Percentages(levels: seq<int>) {
    forall i :: 0 <= i < |levels| ==> 0 <= levels[i] <= 100
  }

  /** Nothing is lost between backups: the account before a run and the rises of the run are what
      was flushed and the account after it. */
  lemma {:induction false} RunConserves(t: Trigger, levels: seq<int>)
    requires Running(t)
    ensures Running(After(t, levels))
    ensures t.socInc + TotalRise([t.savedSoc] + levels) == Flushed(t, levels) + After(t, levels).socInc
    decreases |levels|
  {
    if levels != [] {
      var all := [t.savedSoc] + levels;
      assert all[1..] == levels == [levels[0]] + levels[1..];
      RunConserves(Tick(t, levels[0]), levels[1..]);
    }
  }

  /** Each backup clears at least the trigger, and for percentages at most one step of 100 more
      than what can be pending. */
  lemma {:induction false} FlushBounds(t: Trigger, levels: seq<int>)
    requires Running(t)
    ensures BACKUP_TRIGGER * Backups(t, levels) <= Flushed(t, levels)
    ensures Percentages([t.savedSoc] + levels) ==> Flushed(t, levels) <= (BACKUP_TRIGGER + 99) * Backups(t, levels)
    decreases |levels|
  {
    if levels != [] {
      FlushBounds(Tick(t, levels[0]), levels[1..]);
      assert [levels[0]] + levels[1..] == ([t.savedSoc] + levels)[1..];
      if Percentages([t.savedSoc] + levels) {
        assert 0 <= ([t.savedSoc] + levels)[0] <= 100 && 0 <= ([t.savedSoc] + levels)[1] <= 100;
      }
    }
  }

  /** From the first call on, for any levels: the pending rise is in [0, 20), the rise of the battery
      is what was flushed and what is pending, and each backup took a rise of at least twenty. */
  lemma BackupsFollowRise(levels: seq<int>)
    requires levels != []
    ensures var t, n := After(START, levels), Backups(START, levels);
      && 0 <= t.socInc < 20
      && TotalRise(levels) == Flushed(START, levels) + t.socInc
      && 20 * n <= TotalRise(levels)
      && (Percentages(levels) ==> TotalRise(levels) <= 19 + 119 * n)
  {
    var t := Tick(START, levels[0]);
    assert [t.savedSoc] + levels[1..] == levels;
    RunConserves(t, levels[1..]);
    FlushBounds(t, levels[1..]);
  }

  /** For percentages no account ever leaves the width of an int, not even before a flush. */
  lemma AccountStaysSmall(levels: seq<int>)
    requires Percentages(levels)
    ensures forall k :: 0 < k < |levels| ==>
              0 <= After(START, levels[..k]).socInc + Rising(After(START, levels[..k]), levels[k]) <= 119
  {
    forall k | 0 < k < |levels|
      ensures 0 <= After(START, levels[..k]).socInc + Rising(After(START, levels[..k]), levels[k]) <= 119
    {
      BackupsFollowRise(levels[..k]);
      LastLevel(START, levels[..k]);
    }
  }

  lemma {:induction false} LastLevel(t: Trigger, levels: seq<int>)
    requires levels != []
    ensures After(t, levels).savedSoc == levels[|levels| - 1]
    decreases |levels|
  {
    if |levels| > 1 {
      LastLevel(Tick(t, levels[0]), levels[1..]);
    }
  }
}
