/** CycleCountBackupRestore.cpp: eight charge-cycle counters are kept by the battery hardware and,
    because the hardware can lose them, in a file; whichever is larger wins. */
module CycleCount {
  import opened BatteryText
  import opened TextFiles
  import opened Runs

  const BUCKET_COUNT := 8

  type Bins = bs: seq<int32> | |bs| == BUCKET_COUNT witness ZEROS

  /** Objects with static storage start out zeroed. */
  const ZEROS: seq<int32> := [0, 0, 0, 0, 0, 0, 0, 0]

  /** sscanf into an array: the bins behind the first mismatch keep what they held. */
  function Scanned(text: string, held: Bins): Bins {
    Parse(text, BUCKET_COUNT) + held[|Parse(text, BUCKET_COUNT)|..]
  }

  function Merge(a: Bins, b: Bins): (m: Bins)
    ensures forall i :: 0 <= i < BUCKET_COUNT ==> m[i] >= a[i] && m[i] >= b[i] && (m[i] == a[i] || m[i] == b[i])
  {
    seq(BUCKET_COUNT, i requires 0 <= i < BUCKET_COUNT => if a[i] < b[i] then b[i] else a[i])
  }

  /** The bins in memory and the texts of the two files. */
  datatype State = State(sw: Bins, hw: Bins, storage: string, sram: string)

  /** UpdateAndSave when no file fails: a file is rewritten only if its bins change. */
  function Updated(s: State): State {
    var m := Merge(s.sw, s.hw);
    State(m, m, if m == s.sw then s.storage else Print(m), if m == s.hw then s.sram else Print(m))
  }

  function BackedUp(s: State): State {
    Updated(s.(hw := Scanned(Trim(s.sram), s.hw)))
  }

  function Restored(s: State): State {
    BackedUp(s.(sw := Scanned(s.storage, s.sw)))
  }

  ghost predicate AtLeast(a: Bins, b: Bins) {
    forall i :: 0 <= i < BUCKET_COUNT ==> a[i] >= b[i]
  }

  class CycleCountBackupRestore {
    const swBins: array<int32>
    const hwBins: array<int32>
    const storage: TextFile
    const sram: TextFile

    constructor (storage: TextFile, sram: TextFile)
      requires storage != sram
      ensures this.storage == storage && this.sram == sram && fresh(swBins) && fresh(hwBins) && Valid()
      ensures Current() == State(ZEROS, ZEROS, storage.text, sram.text)
    {
      swBins := new int32[BUCKET_COUNT](_ => 0);
      hwBins := new int32[BUCKET_COUNT](_ => 0);
      this.storage := storage;
      this.sram := sram;
      new;
      assert swBins[..] == ZEROS == hwBins[..];
    }

    predicate Valid() {
      swBins.Length == hwBins.Length == BUCKET_COUNT && swBins != hwBins && storage != sram
    }

    ghost function Current(): State
      requires Valid()
      reads swBins, hwBins, storage, sram
    {
      State(swBins[..], hwBins[..], storage.text, sram.text)
    }

    ghost function Faults(): nat
      reads storage, sram
    {
      storage.faults + sram.faults
    }

    method ReadFromStorage()
      requires Valid()
      modifies swBins, storage`faults
      ensures if storage.faults == old(storage.faults) then swBins[..] == Scanned(storage.text, old(swBins[..]))
              else swBins[..] == old(swBins[..])
      ensures storage.faults >= old(storage.faults)
    {
      var ok, buffer := storage.Read();
      if ok {
        Assign(swBins, Parse(buffer, BUCKET_COUNT));
      }
    }

    method ReadFromSRAM()
      requires Valid()
      modifies hwBins, sram`faults
      ensures if sram.faults == old(sram.faults) then hwBins[..] == Scanned(Trim(sram.text), old(hwBins[..]))
              else hwBins[..] == old(hwBins[..])
      ensures sram.faults >= old(sram.faults)
    {
      var ok, buffer := sram.Read();
      if ok {
        Assign(hwBins, Parse(Trim(buffer), BUCKET_COUNT));
      }
    }

    method SaveToStorage()
      requires Valid()
      modifies storage
      ensures storage.faults == old(storage.faults) ==> storage.text == Print(swBins[..])
      ensures storage.faults >= old(storage.faults)
    {
      BufferRoundTrip(swBins[..]);
      storage.Write(Snprintf(BUFF_SIZE, Print(swBins[..])));
    }

    method SaveToSRAM()
      requires Valid()
      modifies sram
      ensures sram.faults == old(sram.faults) ==> sram.text == Print(hwBins[..])
      ensures sram.faults >= old(sram.faults)
    {
      BufferRoundTrip(hwBins[..]);
      sram.Write(Snprintf(BUFF_SIZE, Print(hwBins[..])));
    }

    /** A file whose counters have not changed is left alone, whatever fails; any other holds the new
        ones unless a write of it failed. */
    ghost predicate FileKept(file: TextFile, text: string, faults: nat, held: Bins, now: Bins)
      reads file
    {
      if now == held then file.text == text && file.faults == faults
      else file.faults == faults ==> file.text == Print(now)
    }

    method UpdateAndSave()
      requires Valid()
      modifies swBins, hwBins, storage, sram
      ensures swBins[..] == hwBins[..] == Merge(old(swBins[..]), old(hwBins[..]))
      ensures Faults() >= old(Faults())
      ensures Faults() == old(Faults()) ==> Current() == Updated(old(Current()))
      ensures FileKept(storage, old(storage.text), old(storage.faults), old(swBins[..]), swBins[..])
      ensures FileKept(sram, old(sram.text), old(sram.faults), old(hwBins[..]), hwBins[..])
    {
      var backup, restore := false, false;
      ghost var m := Merge(swBins[..], hwBins[..]);
      for i := 0 to BUCKET_COUNT
        invariant forall j :: 0 <= j < i ==> swBins[j] == hwBins[j] == m[j]
        invariant forall j :: i <= j < BUCKET_COUNT ==> swBins[j] == old(swBins[j]) && hwBins[j] == old(hwBins[j])
        invariant restore <==> exists j :: 0 <= j < i && m[j] != old(hwBins[j])
        invariant unchanged(storage, sram)
        invariant backup <==> exists j :: 0 <= j < i && m[j] != old(swBins[j])
      {
        if hwBins[i] < swBins[i] {
          hwBins[i] := swBins[i];
          restore := true;
        } else if hwBins[i] > swBins[i] {
          swBins[i] := hwBins[i];
          backup := true;
        }
      }
      assert swBins[..] == m == hwBins[..];
      assert !restore ==> m == old(hwBins[..]);
      assert !backup ==> m == old(swBins[..]);
      if restore {
        SaveToSRAM();
      }
      if backup {
        SaveToStorage();
      }
    }

    /** Whatever fails, the bins in memory agree afterwards and none has gone down. */
    method Backup()
      requires Valid()
      modifies swBins, hwBins, storage, sram
      ensures Faults() >= old(Faults())
      ensures Faults() == old(Faults()) ==> Current() == BackedUp(old(Current()))
      ensures swBins[..] == hwBins[..] && AtLeast(swBins[..], old(swBins[..]))
    {
      ReadFromSRAM();
      UpdateAndSave();
    }

    method Restore()
      requires Valid()
      modifies swBins, hwBins, storage, sram
      ensures Faults() >= old(Faults())
      ensures Faults() == old(Faults()) ==> Current() == Restored(old(Current()))
      ensures swBins[..] == hwBins[..]
    {
      ReadFromStorage();
      ReadFromSRAM();
      UpdateAndSave();
    }
  }

  method Assign(bins: array<int32>, values: seq<int32>)
    requires bins.Length == BUCKET_COUNT && |values| <= BUCKET_COUNT
    modifies bins
    ensures bins[..] == values + old(bins[..])[|values|..]
  {
    for i := 0 to |values|
      invariant forall j :: 0 <= j < BUCKET_COUNT ==> bins[j] == if j < i then values[j] else old(bins[j])
    {
      bins[i] := values[i];
    }
  }

  // ---------- Whole runs ----------

  /** The hardware shows a new text; then the service backs up, or starts afresh and restores. */
  datatype Step = Step(reading: string, restart: bool)

  function Next(s: State, step: Step): State {
    if step.restart then Restored(State(ZEROS, ZEROS, s.storage, step.reading))
    else BackedUp(s.(sram := step.reading))
  }

  ghost function Run(s: State, steps: seq<Step>): State {
    After(Next, s, steps)
  }

  /** The counters that a reading offers, the rest taken as what is held. */
  function Offered(step: Step, held: Bins): Bins {
    Scanned(Trim(step.reading), if step.restart then ZEROS else held)
  }

  function Raised(held: Bins, step: Step): Bins {
    Merge(held, Offered(step, held))
  }

  /** The pointwise maximum of the held bins and every reading. */
  ghost function Highest(held: Bins, steps: seq<Step>): Bins {
    After(Raised, held, steps)
  }

  /** All that is kept agrees: both arrays, and what a fresh start would read from the storage. */
  ghost predicate Agreed(s: State, m: Bins) {
    s.sw == s.hw == m == Scanned(s.storage, ZEROS)
  }

  /** A text of the hardware file with all eight counters. */
  ghost predicate Complete(text: string) {
    |Parse(Trim(text), BUCKET_COUNT)| == BUCKET_COUNT
  }

  ghost predicate Shows(text: string, m: Bins) {
    Parse(Trim(text), BUCKET_COUNT) == m
  }

  /** Of a text that stops being numbers behind xs, those are taken, and the other bins keep what they
      held. */
  lemma GarbledText(xs: seq<int32>, s: string, held: Bins)
    requires 1 <= |xs| <= 8 && ScanInt(s) == Mismatch
    ensures Scanned(Print(xs) + (" " + s), held) == xs + held[|xs|..]
  {
    ParseStops(xs, s, 8);
  }

  lemma PrintScans(m: Bins, held: Bins)
    ensures Scanned(Print(m), held) == m && Scanned(Trim(Print(m)), held) == m
    ensures |Parse(Print(m), BUCKET_COUNT)| == |Parse(Trim(Print(m)), BUCKET_COUNT)| == BUCKET_COUNT
  {
    BufferRoundTrip(m);
  }

  /** One step keeps the agreement, whatever text the hardware shows.  If that text is complete,
      so is the one it shows afterwards, and it says the same as the storage. */
  lemma StepKeepsAgreement(s: State, m: Bins, step: Step)
    requires Agreed(s, m)
    ensures Agreed(Next(s, step), Raised(m, step))
    ensures Complete(step.reading) ==> Shows(Next(s, step).sram, Raised(m, step))
  {
    PrintScans(Raised(m, step), ZEROS);
  }

  /** Over any run, however the hardware loses or garbles its counters and however often the
      service is restarted, the storage holds the pointwise maximum of what it held at the start and
      all that was read; so does the hardware whenever its last text was complete. */
  lemma RunKeepsHighest(s: State, m: Bins, steps: seq<Step>)
    requires Agreed(s, m)
    ensures Agreed(Run(s, steps), Highest(m, steps))
    ensures steps != [] && Complete(steps[|steps| - 1].reading) ==> Shows(Run(s, steps).sram, Highest(m, steps))
  {
    var related := (s: State, m: Bins) => Agreed(s, m);
    var last := (step: Step, s: State, m: Bins) => Complete(step.reading) ==> Shows(s.sram, m);
    forall s, m, step | Agreed(s, m)
      ensures Agreed(Next(s, step), Raised(m, step)) && last(step, Next(s, step), Raised(m, step))
    {
      StepKeepsAgreement(s, m, step);
    }
    RunKeeps(Next, Raised, related, last, s, m, steps);
  }

  /** Highest is the least upper bound: it is at least every counter read, and each of its counters
      is one of those. */
  lemma {:induction false} HighestIsMaximum(held: Bins, steps: seq<Step>, i: nat)
    requires i < BUCKET_COUNT
    ensures Highest(held, steps)[i] >= held[i]
    ensures forall k :: 0 <= k < |steps| ==> Reads(steps[k], i) ==>
              Highest(held, steps)[i] >= Parse(Trim(steps[k].reading), BUCKET_COUNT)[i]
    ensures var h := Highest(held, steps)[i];
      h == held[i] || exists k :: 0 <= k < |steps| && h == Scanned(Trim(steps[k].reading), ZEROS)[i]
    decreases |steps|
  {
    if steps != [] {
      var next := Raised(held, steps[0]);
      HighestIsMaximum(next, steps[1..], i);
      var h := Highest(held, steps)[i];
      forall k | 0 <= k < |steps| && Reads(steps[k], i) ensures h >= Parse(Trim(steps[k].reading), BUCKET_COUNT)[i] {
        assert k > 0 ==> steps[k] == steps[1..][k - 1];
      }
      if h != next[i] {
        var k :| 0 <= k < |steps[1..]| && h == Scanned(Trim(steps[1..][k].reading), ZEROS)[i];
        assert h == Scanned(Trim(steps[k + 1].reading), ZEROS)[i];
      } else if h != held[i] {
        assert h == Scanned(Trim(steps[0].reading), ZEROS)[i];
      }
    }
  }

  /** The text of the step holds a counter i. */
  predicate Reads(step: Step, i: nat) {
    i < |Parse(Trim(step.reading), BUCKET_COUNT)|
  }

  /** The first Restore of a service establishes the agreement, whatever the files hold. */
  lemma FirstRestore(storage: string, sram: string)
    ensures var m := Scanned(storage, ZEROS);
      Agreed(Restored(State(ZEROS, ZEROS, storage, sram)), Merge(m, Scanned(Trim(sram), ZEROS)))
  {
    var m := Scanned(storage, ZEROS);
    StepKeepsAgreement(State(m, m, storage, sram), m, Step(sram, true));
  }
}
