/** A file that is read and written whole, and may refuse either. */
module TextFiles {

  class TextFile {
    var text: string
    /** How many reads and writes have failed. */
    var faults: nat

    constructor (text: string)
      ensures this.text == text && faults == 0
    {
      this.text := text;
      faults := 0;
    }

    /** android::base::ReadFileToString */
    method Read() returns (ok: bool, buffer: string)
      modifies this`faults
      ensures if ok then buffer == text && faults == old(faults) else faults > old(faults)
    {
      ok, buffer := *, text;
      if !ok {
        faults := faults + 1;
      }
    }

    /** android::base::WriteStringToFile: the file is truncated first, so a failing write can leave
        any prefix of the new text. */
    method Write(s: string)
      modifies this
      ensures faults == old(faults) ==> text == s
      ensures faults == old(faults) || faults == old(faults) + 1
    {
      var ok := *;
      var k: nat :| k <= |s|;
      text := if ok then s else s[..k];
      faults := if ok then faults else faults + 1;
    }
  }
}
