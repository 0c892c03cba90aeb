/** LearnedCapacityBackupRestore.cpp: the full-charge capacity that the battery hardware has
    learned is kept in a file; the smaller value wins, and zero means that nothing is known. */
module LearnedCapacity {
  import opened BatteryText
  import opened TextFiles
  import opened Runs

  /** sscanf into one integer, which keeps what it held on a mismatch. */
  function Scanned(text: string, held: int32): int32 {
    if Parse(text, 1) == [] then held else Parse(text, 1)[0]
  }

  /** The capacities in memory and the texts of the two files. */
  datatype State = State(sw: int32, hw: int32, storage: string, sram: string)

  /** UpdateAndSave when no file fails. */
  function Updated(s: State): State {
    if s.hw == 0 || s.hw == s.sw then s
    else if s.hw < s.sw || s.sw == 0 then s.(sw := s.hw, storage := Print([s.hw]))
    else s.(hw := s.sw, sram := Print([s.sw]))
  }

  function BackedUp(s: State): State {
    Updated(s.(hw := Scanned(Trim(s.sram), s.hw)))
  }

  function Restored(s: State): State {
    BackedUp(s.(sw := Scanned(s.storage, s.sw)))
  }

  class LearnedCapacityBackupRestore {
    var swCap: int32
    var hwCap: int32
    const storage: TextFile
    const sram: TextFile

    constructor (storage: TextFile, sram: TextFile)
      ensures this.storage == storage && this.sram == sram
      ensures Current() == State(0, 0, storage.text, sram.text)
    {
      swCap, hwCap := 0, 0;
      this.storage := storage;
      this.sram := sram;
    }

    ghost function Current(): State
      reads this, storage, sram
    {
      State(swCap, hwCap, storage.text, sram.text)
    }

    ghost function Faults(): nat
      reads storage, sram
    {
      storage.faults + sram.faults
    }

    method ReadFromStorage()
      modifies this`swCap, storage`faults
      ensures swCap == if storage.faults == old(storage.faults) then Scanned(storage.text, old(swCap)) else old(swCap)
      ensures storage.faults >= old(storage.faults)
    {
      var ok, buffer := storage.Read();
      if ok && Parse(buffer, 1) != [] {
        swCap := Parse(buffer, 1)[0];
      }
    }

    method ReadFromSRAM()
      modifies this`hwCap, sram`faults
      ensures hwCap == if sram.faults == old(sram.faults) then Scanned(Trim(sram.text), old(hwCap)) else old(hwCap)
      ensures sram.faults >= old(sram.faults)
    {
      var ok, buffer := sram.Read();
      if ok && Parse(Trim(buffer), 1) != [] {
        hwCap := Parse(Trim(buffer), 1)[0];
      }
    }

    method SaveToStorage()
      modifies storage
      ensures storage.faults == old(storage.faults) ==> storage.text == Print([swCap])
      ensures storage.faults >= old(storage.faults)
    {
      BufferRoundTrip([swCap]);
      storage.Write(Snprintf(BUFF_SIZE, Print([swCap])));
    }

    method SaveToSRAM()
      modifies sram
      ensures sram.faults == old(sram.faults) ==> sram.text == Print([hwCap])
      ensures sram.faults >= old(sram.faults)
    {
      BufferRoundTrip([hwCap]);
      sram.Write(Snprintf(BUFF_SIZE, Print([hwCap])));
    }

    /** A file whose capacity has not changed is left alone, whatever fails; any other holds the new
        one unless a write of it failed. */
    ghost predicate FileKept(file: TextFile, text: string, faults: nat, held: int32, now: int32)
      reads file
    {
      if now == held then file.text == text && file.faults == faults
      else file.faults == faults ==> file.text == Print([now])
    }

    method UpdateAndSave()
      requires storage != sram
      modifies this, storage, sram
      ensures Faults() >= old(Faults())
      ensures Faults() == old(Faults()) ==> Current() == Updated(old(Current()))
      ensures hwCap == 0 || hwCap == swCap
      ensures old(swCap) != 0 ==> swCap != 0 && swCap <= old(swCap)
      ensures FileKept(storage, old(storage.text), old(storage.faults), old(swCap), swCap)
      ensures FileKept(sram, old(sram.text), old(sram.faults), old(hwCap), hwCap)
    {
      var backup, restore := false, false;
      if hwCap != 0 {
        if hwCap < swCap || swCap == 0 {
          swCap := hwCap;
          backup := true;
        } else if hwCap > swCap {
          hwCap := swCap;
          restore := true;
        }
      }
      if restore {
        SaveToSRAM();
      }
      if backup {
        SaveToStorage();
      }
    }

    /** Whatever fails, a known capacity is not forgotten and does not rise in memory. */
    method Backup()
      requires storage != sram
      modifies this, storage, sram
      ensures Faults() >= old(Faults())
      ensures Faults() == old(Faults()) ==> Current() == BackedUp(old(Current()))
      ensures old(swCap) != 0 ==> swCap != 0 && swCap <= old(swCap)
    {
      ReadFromSRAM();
      UpdateAndSave();
    }

    method Restore()
      requires storage != sram
      modifies this, storage, sram
      ensures Faults() >= old(Faults())
      ensures Faults() == old(Faults()) ==> Current() == Restored(old(Current()))
    {
      ReadFromStorage();
      ReadFromSRAM();
      UpdateAndSave();
    }
  }

  // ---------- Whole runs ----------

  /** The hardware shows a new text; then the service backs up, or starts afresh and restores. */
  datatype Step = Step(reading: string, restart: bool)

  function Next(s: State, step: Step): State {
    if step.restart then Restored(State(0, 0, s.storage, step.reading))
    else BackedUp(s.(sram := step.reading))
  }

  ghost function Run(s: State, steps: seq<Step>): State {
    After(Next, s, steps)
  }

  /** What a text says: zero if it says nothing. */
  function Value(text: string): int32 {
    Scanned(text, 0)
  }

  function Read(step: Step): int32 {
    Value(Trim(step.reading))
  }

  /** The smaller of two capacities, of which zero is unknown. */
  function Lesser(a: int32, b: int32): int32 {
    if a == 0 then b else if b == 0 then a else if a < b then a else b
  }

  function Lowered(held: int32, step: Step): int32 {
    Lesser(held, Read(step))
  }

  ghost function Least(held: int32, steps: seq<Step>): int32 {
    After(Lowered, held, steps)
  }

  /** Memory and storage agree on the capacity c, and memory has no other of the hardware. */
  ghost predicate Agreed(s: State, c: int32) {
    s.sw == c == Value(s.storage) && (s.hw == 0 || s.hw == c)
  }

  /** One step, whatever text the hardware shows.  A reading that is not zero leaves hardware and
      storage equal; a zero one changes neither text. */
  lemma StepKeepsAgreement(s: State, c: int32, step: Step)
    requires Agreed(s, c)
    ensures Agreed(Next(s, step), Lesser(c, Read(step)))
    ensures Read(step) != 0 ==> Value(Trim(Next(s, step).sram)) == Lesser(c, Read(step)) != 0
    ensures Read(step) == 0 ==> Next(s, step).storage == s.storage && Next(s, step).sram == step.reading
  {
    var n := Lesser(c, Read(step));
    BufferRoundTrip([n]);
  }

  /** Over any run the stored capacity is the least of what it was and all that was read, zeros left
      out; after a reading that was not zero the hardware shows the same. */
  lemma RunKeepsLeast(s: State, c: int32, steps: seq<Step>)
    requires Agreed(s, c)
    ensures Agreed(Run(s, steps), Least(c, steps))
    ensures steps != [] && Read(steps[|steps| - 1]) != 0 ==> Value(Trim(Run(s, steps).sram)) == Least(c, steps)
  {
    var related := (s: State, c: int32) => Agreed(s, c);
    var last := (step: Step, s: State, c: int32) => Read(step) != 0 ==> Value(Trim(s.sram)) == c;
    forall s, c, step | Agreed(s, c)
      ensures Agreed(Next(s, step), Lowered(c, step)) && last(step, Next(s, step), Lowered(c, step))
    {
      StepKeepsAgreement(s, c, step);
    }
    RunKeeps(Next, Lowered, related, last, s, c, steps);
  }

  /** Least is the minimum of the non-zero values: below every one of them, and one of them;
      zero only if there is none. */
  lemma {:induction false} LeastIsMinimum(held: int32, steps: seq<Step>)
    ensures var c := Least(held, steps);
      && (held != 0 ==> c <= held)
      && (forall k :: 0 <= k < |steps| && Read(steps[k]) != 0 ==> c <= Read(steps[k]))
      && (c == held || exists k :: 0 <= k < |steps| && Read(steps[k]) == c)
      && (c == 0 <==> held == 0 && forall k :: 0 <= k < |steps| ==> Read(steps[k]) == 0)
    decreases |steps|
  {
    if steps != [] {
      var next, rest := Lowered(held, steps[0]), steps[1..];
      LeastIsMinimum(next, rest);
      var c := Least(held, steps);
      forall k | 0 < k < |steps| ensures steps[k] == rest[k - 1] {
      }
      if c != next {
        var k :| 0 <= k < |rest| && Read(rest[k]) == c;
        assert Read(steps[k + 1]) == c;
      } else if c != held {
        assert Read(steps[0]) == c;
      }
      if c != 0 && next == 0 {
        var k :| 0 <= k < |rest| && Read(rest[k]) != 0;
        assert Read(steps[k + 1]) != 0;
      }
    }
  }

  /** The first Restore establishes the agreement, whatever the files hold. */
  lemma FirstRestore(storage: string, sram: string)
    ensures Agreed(Restored(State(0, 0, storage, sram)), Lesser(Value(storage), Value(Trim(sram))))
  {
    StepKeepsAgreement(State(Value(storage), 0, storage, sram), Value(storage), Step(sram, true));
  }
}
