# Verified model of a fail-safe partition-table update

A disk holds two copies of a GUID Partition Table: a header block and an entries array each
(sections 5.3.2 and 5.3.3 of the UEFI Specification). `gpt-utils.cpp` updates the boot partitions in
three stages, MAIN, BACKUP and FINALIZE. What has been done so far is recorded nowhere but in the two
headers, whose signatures the stages corrupt and repair on purpose. This project models that
protocol down to the bytes of the disk and proves what it is for: that no failing write and no power
loss leaves a disk without a usable table, that an interrupted update can be resumed, and that a
complete one gives back the disk it started from. Around it stand the checksum, the in-memory table
editor, the battery counters of `health/` and the choice of an audio output.

## How it is built

- `Bytes`, `GptHeader`, `PartitionNames`: the byte macros, one header block, one entry name.
- `BootChain`, `EntryArray`: the boot-chain swap on a list of entries, and the same in place on the
  bytes of an entries array.
- `UpdateProtocol`: the protocol as a machine on the pair of tables. It is stated over any header
  format that obeys a few laws (`Lawful`). `GptInstance` proves the laws of the GPT format, for every
  checksum function, every separable list of names and both kinds of storage. The ghost parameter `s`
  of the methods is this instance; `Realizes` ties it to the functions on bytes.
- `DiskImage`, `ImagePlans`: disk images, and what each call writes to one, as a list of writes at
  byte offsets, for every disk whose two header blocks can be read.
- `BlockDevice`, `UpdateStages`: a block device whose reads, writes and control calls may fail, and
  `prepare_partitions` as methods that change buffers and device in place, proved against these lists.
- `GoodDisks`: on a disk that is laid out well the lists are the steps of the machine. `WriteOrder` says
  what a stage that is stopped leaves of the header states and of the secondary table. `UpdateResults`
  carries the machine's results over to whole images, entry names and damaged arrays;
  `ExampleDisks` holds a small disk that meets what these demand, and `BlankSecondary` shows what
  happens on a disk that is not laid out well.
- `BootUpdate`: `prepare_boot_update` over all devices. `GptDisk`: the `gpt_disk` handle.
- `ShiftAlgebra`, `Crc32Table`, `Crc32`, `CrcResidue`: `sparse_crc32` against bit-serial division.
  `gpt-utils.cpp` itself calls zlib's `crc32`; where a result needs a particular checksum,
  `sparse_crc32` with seed zero stands for it (`Crc0`). All other results hold for any checksum.
- `Runs`, `TextFiles`, `BatteryText`, `CycleCount`, `LearnedCapacity`, `HealthService`: the battery counters.
- `AudioFlags`, `AudioCourse`, `AudioOutputs`: `getOutputForDevices`: how the flags are rewritten, what
  course a search can take and which calls of the base class it consists of, and the search itself.

## Failure model

The write of a header block happens whole or not at all; the write of an entries array may stop after
any byte; a failing write may have done any of this. Writes reach the disk in program order. Opening,
block-size queries, reads and the XBL boot-LUN switch may fail; `Device.switches` records the boot
chains that the LUN has been switched to. `Device.faults` counts the failures, so that each method
says what it does when nothing fails and what may be left when something does. A power loss is a
failure after which no further call is made. A transfer past the end of the device counts as a
failure. The code reads two header blocks and believes them. A call needs no more than that both can
be read (`Workable`): the bytes under the header checksum lie in the block. Only a stage that is due
needs a little more, MAIN an array of whole entries of at least 128 bytes, MAIN and FINALIZE that the
header they mark can still be read. A disk is good (`GoodDisk`) when both headers describe arrays of equal
size and the four regions do not overlap; the results about tables are about good disks.

## Where the code differs from what one might expect

The model follows the code.

- The signature check compares nine bytes, with the terminating NUL; a CRC mismatch hides a bad
  signature.
- The swap exchanges the first 128 bytes of two entries, name included. After it a name is found in
  the same place, with the other contents; longer entries keep their tails.
- On UFS every list name that starts with `xbl` is passed over, `xbl_config` too (`NameAfterSwap`).
- Repeating MAIN or BACKUP succeeds without a write; repeating FINALIZE is refused.
- MAIN without a pair to swap succeeds and writes nothing, so the update never leaves that stage.
- A stop between the two header writes of BACKUP leaves both headers good, and the next stage asked
  for is MAIN again.
- When reading a header state fails, `prepare_partitions` returns 1, the value of a C `||`.
- The check for duplicate LUNs is skipped once 25 are listed. The swap list has 17 names.
- A `gpt_disk` handle fills its backup half from the primary table, takes the header checksum on
  loading without clearing the checksum field, and writes back the primary table only.
- No stage checks where the headers say that the arrays lie. The primary array is left alone exactly
  if these places keep clear of it (`PrimarySparedIff`). A blank last block passes for a header with a
  right CRC-32 and a bad signature, so FINALIZE is due; it copies the primary array to the start of the
  disk, over the primary header and possibly over itself (`BlankSecondaryExample`).
- A playback stream other than music that asks for a direct output while a proxy device is there is
  left with no flags at all: the flag DIRECT that the proxy check keeps is taken away by the next check
  (`ProxyLeaves`).
- The audio check that keeps plain direct outputs for music comes before deep buffering is removed,
  so it misses a direct, deep-buffered request of another stream; `Slips` is the exact condition on the
  request and the configuration (`PlainDirectIff`).

## Model

| member | source | states |
|---|---|---|
| `Bytes.GetPut` | gpt-utils/gpt-utils.cpp:91-110 | A word stored by PUT_4_BYTES is read back by GET_4_BYTES, and no other byte changes. |
| `Bytes.PutWord` | gpt-utils/gpt-utils.cpp:105-110 | The in-place store is the field update that the lemmas are about. |
| `Crc32Table.TableIsEightSteps` | gpt-utils/sparse_crc32.cpp:28-81 | Each of the 256 table entries is eight shift/xor steps of its index. |
| `Crc32.SparseCrc32` | gpt-utils/sparse_crc32.cpp:90-97 | The table-driven loop computes, for every seed and buffer, bit-serial division by 0xEDB88320. |
| `Crc32.ByteSerial` | gpt-utils/sparse_crc32.cpp:94-96 | Feeding whole bytes refines feeding their bits one at a time. |
| `Crc32.Streaming` | gpt-utils/sparse_crc32.cpp:94-96 | The checksum of a concatenation is the second part's, seeded with the first part's. |
| `Crc32.Affine` | gpt-utils/sparse_crc32.cpp:94-96 | Over three buffers of one length the checksum commutes with exclusive or, for any seeds. |
| `Crc32.BitBurstDetected` | gpt-utils/sparse_crc32.cpp:90-97 | Two buffers whose bits differ only within 32 consecutive ones, at any alignment, have different checksums, from any seed. |
| `Crc32.BurstDetected` | gpt-utils/sparse_crc32.cpp:90-97 | Hence two buffers that differ only within four consecutive bytes have different checksums. |
| `CrcResidue.CheckValue` | gpt-utils/sparse_crc32.cpp:90-97 | The checksum of the nine digits "123456789" from seed 0 is 0xCBF43926, the check value of CRC-32. |
| `CrcResidue.LeadingZeroDetected` | gpt-utils/sparse_crc32.cpp:94-96 | A zero byte put before any message changes its checksum; of nothing and of one zero byte the checksums are 0 and 0xD202EF8D. |
| `CrcResidue.Residue` | gpt-utils/sparse_crc32.cpp:90-97 | For every message and seed the checksum of the message with its checksum behind it, lowest byte first, is 0x2144DF1C. |
| `GptHeader.SetThenGet` | gpt-utils/gpt-utils.cpp:399-516 | After a state is set, that state is read, whatever the header held; geometry and array checksum stay. |
| `GptHeader.ArraySumStored` | gpt-utils/gpt-utils.cpp:347-366 | After an array checksum is stored and the header sealed, it is read back and the header is never GPT_BAD_CRC. |
| `GptHeader.StateIs` | gpt-utils/gpt-utils.cpp:433-441 | GPT_BAD_CRC exactly if the covered bytes, with bytes 16 to 19 taken as zero, have another checksum than is stored there; otherwise GPT_OK exactly if the nine signature bytes are there. |
| `GptHeader.SetBytes` | gpt-utils/gpt-utils.cpp:496-510 | Setting a state writes the nine signature bytes, or a zero over the first, and the checksum of the result at byte 16; no other byte changes. |
| `GptHeader.StoreBytes` | gpt-utils/gpt-utils.cpp:364-369 | Storing an array checksum writes it at byte 88 and the checksum of the result at byte 16; no other byte changes. |
| `GptHeader.GoodHeaderDetermined` | gpt-utils/gpt-utils.cpp:433-441 | Two good headers that agree outside signature and checksums, and on the array checksum, are equal byte for byte. |
| `PartitionNames.MatchesIff` | gpt-utils/gpt-utils.cpp:193-204 | An entry matches a name exactly when its name is that name or that name with "bak". |
| `PartitionNames.MatchesBytes` | gpt-utils/gpt-utils.cpp:193-202 | The same of the bytes of an entry: every second one from byte 56 on. |
| `PartitionNames.SwapListSeparable` | gpt-utils/gpt-utils.h:82-85 | The swap list has distinct names, none of which is another's backup name. |
| `EntryArray.PentrySeek` | gpt-utils/gpt-utils.cpp:185-207 | The byte-level search returns the first matching entry at or after its start, or none. |
| `EntryArray.BootChainSwap` | gpt-utils/gpt-utils.cpp:224-265 | The in-place loop makes the entries the swapped chain of the old ones, and returns 0 exactly when something was swapped, else 1. |
| `BootChain.SwappableIff` | gpt-utils/gpt-utils.cpp:234-264 | Something is swapped exactly when two entries match a list name, on UFS one that does not begin with "xbl". |
| `BootChain.ChainIsPartner` | gpt-utils/gpt-utils.cpp:234-263 | The whole chain of swaps moves each entry at once to the place of a partner computed on the original array. |
| `BootChain.PartnerTwice` | gpt-utils/gpt-utils.cpp:234-263 | Partners are mutual: the swaps are pairwise disjoint transpositions. |
| `BootChain.SwapTwice` | gpt-utils/gpt-utils.cpp:224-265 | Applying the boot-chain swap twice gives back every byte. |
| `BootChain.SwapIsPermutation` | gpt-utils/gpt-utils.cpp:256-262 | The multiset of entries is preserved. |
| `BootChain.SeekAfterSwap` | gpt-utils/gpt-utils.cpp:193-260 | A list name with a second match, unless it begins with "xbl" on UFS, then finds that entry where its first match was; any other list name finds what it found before. |
| `BootChain.NameAfterSwap` | gpt-utils/gpt-utils.cpp:234-263 | The first two entries that match a list name exchange their first 128 bytes and remain its first two; on UFS the entries of a name that begins with "xbl" stay as they are, as do those of a name without a second. |
| `BootChain.OthersUntouched` | gpt-utils/gpt-utils.cpp:234-263 | An entry that is not one of the first two of a name that is exchanged is left alone. |
| `BootChain.WholeEntriesPermuted` | gpt-utils/gpt-utils.cpp:256-262 | Entries of 128 bytes are permuted whole. |
| `GptInstance.GptIsLawful` | gpt-utils/gpt-utils.cpp:281-516 | The GPT header format, with the boot-chain swap, obeys the laws that the protocol proofs rest on, for any checksum. |
| `UpdateProtocol.CallIsSafe` | gpt-utils/gpt-utils.cpp:741-921 | Whatever fails in one call of any stage, the disk keeps a usable table, no bad CRC, and its primary array. |
| `UpdateProtocol.CrashSafety` | gpt-utils/gpt-utils.cpp:741-921 | The same at every point of every run of stage calls in any order, from two consistent tables. |
| `UpdateProtocol.Refinement` | gpt-utils/gpt-utils.cpp:765-911 | Each call is the step of a three-state machine, a success without a write, or a refusal without a write; it says which, for all well-formed tables and all stages. |
| `UpdateProtocol.CorruptIsRefused` | gpt-utils/gpt-utils.cpp:772-786 | In every other combination of header states all calls are refused, whatever readable headers say about their arrays. |
| `UpdateProtocol.RepeatIsSkipped` | gpt-utils/gpt-utils.cpp:802-805 | Repeating MAIN or BACKUP after it was carried out writes nothing and succeeds. |
| `UpdateProtocol.NothingToSwap` | gpt-utils/gpt-utils.cpp:356-361 | With no pair to swap, no run of calls ever changes the disk. |
| `UpdateProtocol.MainResult` | gpt-utils/gpt-utils.cpp:835-848 | A MAIN that wrote leaves the secondary the only good table, complete and swapped. |
| `UpdateProtocol.WholeCycle` | gpt-utils/gpt-utils.cpp:810-911 | MAIN, BACKUP, FINALIZE restore the primary table and settle the secondary on it; both tables are as before exactly if their entries were equal. |
| `UpdateProtocol.ResumeAdvances` | gpt-utils/gpt-utils.cpp:787-911 | Every resumed stage decreases the distance to a settled disk by one. |
| `UpdateProtocol.Convergence` | gpt-utils/gpt-utils.cpp:787-911 | From any point of any run, at most three fault-free calls of the selected stage settle the disk; they give back both tables exactly if the entries were equal before the run. |
| `WriteOrder.StoppedChain` | gpt-utils/gpt-utils.cpp:372-384 | A stopped MAIN or FINALIZE leaves both headers in the states that it found, so it stays due; the secondary array is begun only when its header holds the new checksum; a state changes only with the whole array in place. |
| `WriteOrder.FinalizeArmsLast` | gpt-utils/gpt-utils.cpp:895-911 | Whatever FINALIZE leaves, a good secondary header has the primary's array behind it, with its checksum; otherwise FINALIZE is still due. |
| `WriteOrder.MainDisarmsLast` | gpt-utils/gpt-utils.cpp:841-855 | Whatever MAIN leaves, the primary header is corrupted only with the complete swapped secondary as the good table. |
| `WriteOrder.StoppedBackup` | gpt-utils/gpt-utils.cpp:872-890 | BACKUP touches no array; stopped between its writes it leaves both headers good. |
| `WriteOrder.StoppedImage` | gpt-utils/gpt-utils.cpp:741-921 | The same of disk images: a due stage that did not complete stays due, but for a BACKUP stopped between its writes, after which MAIN is due. |
| `BlockDevice.GetState` | gpt-utils/gpt-utils.cpp:399-448 | Reads the header from the device and returns its state, or fails. |
| `BlockDevice.SetState` | gpt-utils/gpt-utils.cpp:465-521 | Writes exactly the marked and sealed header block, or leaves the device as it was. |
| `BlockDevice.SetBootChain` | gpt-utils/gpt-utils.cpp:281-384 | With no fault makes the planned writes and returns the code of the plan; with a fault leaves a cut of them; wherever the headers point. |
| `UpdateStages.PreparePartitions` | gpt-utils/gpt-utils.cpp:741-921 | The same for the whole call, on any disk whose header blocks can be read; a bad checksum or two bad signatures mean a non-zero code, and a refusal changes no byte, whatever fails. On UFS with XBL a due MAIN switches to the backup boot LUN and a due BACKUP to the normal one, before any write; nothing else switches. |
| `ImagePlans.CorruptImageIsRefused` | gpt-utils/gpt-utils.cpp:772-786 | On any two readable header blocks with a bad checksum or two bad signatures, every call is refused and no byte changes, whatever fails. |
| `ImagePlans.PrimarySparedIff` | gpt-utils/gpt-utils.cpp:315-376 | The writes that a due stage begins keep off the primary array exactly if the offsets in the headers keep clear of it, on the device or past its end. |
| `ImagePlans.PrimaryKept` | gpt-utils/gpt-utils.cpp:315-376 | Then the primary array is byte for byte as it was, whatever fails in the call. |
| `GoodDisks.PrepareReflects` | gpt-utils/gpt-utils.cpp:741-911 | On a good disk the bytes written are the steps of the protocol on its two tables. |
| `GoodDisks.GoodTransition` | gpt-utils/gpt-utils.cpp:741-921 | After a call on a good disk, completed or not, its tables are those of the protocol, no other byte has changed and the disk is good. |
| `BlankSecondary.BlankSecondaryIsDue` | gpt-utils/gpt-utils.cpp:433-441 | Before a blank last block and a usable primary table FINALIZE is due and writes the primary array at offset 0. |
| `BlankSecondary.BlankSecondaryOverwrites` | gpt-utils/gpt-utils.cpp:325-376 | It overwrites the first bytes of the disk, the primary header among them, with the primary array. |
| `BlankSecondary.BlankSecondaryExample` | gpt-utils/gpt-utils.cpp:281-384 | For CRC-32 a disk of six blocks of 512 bytes on which FINALIZE blanks the primary header and damages the primary array. |
| `ExampleDisks.GoodExample` | gpt-utils/gpt-utils.cpp:810-911 | For every checksum a disk of five blocks that is good and consistent with a pair to swap: the three stages change it and give it back. |
| `UpdateResults.WholeImageCycle` | gpt-utils/gpt-utils.cpp:810-911 | A successful cycle changes at most the secondary table, and restores the whole image byte for byte exactly if both entries arrays were equal. |
| `UpdateResults.ImageCrashSafety` | gpt-utils/gpt-utils.cpp:741-921 | After every run on a disk image a table is usable, and every byte outside the headers and the secondary array is untouched. |
| `UpdateResults.ImageConvergence` | gpt-utils/gpt-utils.cpp:787-911 | After any run on a disk image stopped anywhere, at most three fault-free calls settle it, and restore the whole image exactly if both arrays were equal before. |
| `UpdateResults.NamesAfterMain` | gpt-utils/gpt-utils.cpp:234-263 | After MAIN the secondary is the only good table, and what each list name finds there is given in terms of the primary one, the names that begin with "xbl" on UFS included. |
| `UpdateResults.BurstIsRefused` | gpt-utils/gpt-utils.cpp:340-345 | Damage within 32 consecutive bits of the primary array of a good disk image makes MAIN and FINALIZE refuse, and no byte is written whatever fails. |
| `BootUpdate.UpdateData.Add` | gpt-utils/gpt-utils.cpp:923-967 | The list grows by the path, unless it is inaccessible or taken for a listed one. |
| `BootUpdate.CollectedIsList` | gpt-utils/gpt-utils.cpp:997-1029 | The LUN list is in bounds, duplicate-free, and covers exactly the accessible devices that the names resolve to. |
| `BootUpdate.PrepareBootUpdate` | gpt-utils/gpt-utils.cpp:969-1048 | The devices that are due are listed once each; each goes through one call, a device that fails stops no other, none else is touched or needs to be readable, and the result is 0 exactly if all succeeded. |
| `BootUpdate.DueIff` | gpt-utils/gpt-utils.cpp:997-1029 | On UFS a device is due exactly if it can be accessed and the by-name link of the backup of a list name that does not begin with "xbl" leads behind its path of 14 characters; otherwise the eMMC disk is. |
| `BootUpdate.NoBackupLinks` | gpt-utils/gpt-utils.cpp:997-1047 | Without such a link nothing is listed, no device changes, and the update succeeds. |
| `BootUpdate.RerunLeavesAdvanced` | gpt-utils/gpt-utils.cpp:802-805 | Repeating MAIN or BACKUP leaves a disk on which it was carried out byte for byte alone, even if the repetition fails. |
| `BootUpdate.RerunOfFleet` | gpt-utils/gpt-utils.cpp:997-1047 | A second update for the same stage lists the same devices and touches none on which the first one carried it out. |
| `BootUpdate.FleetCrashSafety` | gpt-utils/gpt-utils.cpp:969-1048 | After any sequence of updates of all devices with any failures, each consistent device keeps a usable table, and can be settled in at most three calls. |
| `BootUpdate.FleetCycle` | gpt-utils/gpt-utils.cpp:969-1048 | MAIN, BACKUP and FINALIZE that succeed for all devices settle each consistent one, give back its image exactly if its arrays were equal, and touch no other. |
| `GptDisk.Disk.GetDiskInfo` | gpt-utils/gpt-utils.cpp:1374-1444 | Both halves of the handle hold the primary header and array. |
| `GptDisk.Disk.UpdateCrc` | gpt-utils/gpt-utils.cpp:1469-1501 | Each header copy, whatever it holds, stores the checksum of its array and is sealed over the size that the primary copy tells; an unloaded handle is refused. |
| `GptDisk.Disk.Commit` | gpt-utils/gpt-utils.cpp:1504-1541 | Writes the primary header, then as many bytes of the array to where that header says; a fault leaves a cut. |
| `GptDisk.CommittedTable` | gpt-utils/gpt-utils.cpp:1469-1541 | After a commit of any entries the primary passes both checks exactly if its signature is there. |
| `GptDisk.StoppedCommit` | gpt-utils/gpt-utils.cpp:1519-1532 | A stopped commit leaves the secondary as usable as it was, and says exactly when the primary is usable. |
| `GptDisk.EditTable` | gpt-utils/gpt-utils.cpp:1374-1541 | Load, edit any bytes of the entries, update, commit, load again: the second handle holds the committed header and the edited entries. |
| `BatteryText.RoundTrip` | health/CycleCountBackupRestore.cpp:44-54 | Any list of 32-bit numbers is scanned back from its print. |
| `BatteryText.PrintIsNumeral` | health/CycleCountBackupRestore.cpp:52-56 | A number is printed as the one text of digits without needless zeros that reads as it, after a minus sign if it is negative. |
| `BatteryText.PrintLast` | health/CycleCountBackupRestore.cpp:52-56 | One space lies between two numbers. |
| `BatteryText.ParseStops` | health/CycleCountBackupRestore.cpp:44-50 | A text is read up to the first place where no number stands. |
| `BatteryText.BufferRoundTrip` | health/CycleCountBackupRestore.cpp:52-68 | Eight numbers always fit the 256-byte buffer, and trimming the text changes nothing. |
| `CycleCount.CycleCountBackupRestore.UpdateAndSave` | health/CycleCountBackupRestore.cpp:82-99 | Both arrays become the pointwise maximum; a file whose counters do not change is left alone whatever fails, any other holds the new ones unless its write failed. |
| `CycleCount.RunKeepsHighest` | health/CycleCountBackupRestore.cpp:26-36 | Over any run of backups and restarts with any hardware texts, storage and hardware hold the running maximum. |
| `CycleCount.HighestIsMaximum` | health/CycleCountBackupRestore.cpp:86-94 | That maximum is at least every counter read, and is one of them. |
| `CycleCount.FirstRestore` | health/CycleCountBackupRestore.cpp:26-31 | The first restore of a service establishes the agreement that runs keep, whatever the files hold. |
| `HealthService.BackupTrigger.CycleCountBackup` | health/HealthServiceDefault.cpp:37-56 | The counters are backed up exactly when the trigger fires. |
| `HealthService.RunConserves` | health/HealthServiceDefault.cpp:47-54 | No rise is lost: pending before and rises of the run are flushed rises and pending after. |
| `HealthService.BackupsFollowRise` | health/HealthServiceDefault.cpp:34-56 | Pending is in [0, 20), each backup takes a rise of at least 20, and for percentages at most 19 + 119 per backup have risen. |
| `HealthService.AccountStaysSmall` | health/HealthServiceDefault.cpp:47-51 | For percentages the account never exceeds 119, so it cannot overflow. |
| `LearnedCapacity.LearnedCapacityBackupRestore.UpdateAndSave` | health/LearnedCapacityBackupRestore.cpp:65-81 | A known capacity is never forgotten nor raised, even when files fail; a file whose capacity does not change is left alone. |
| `LearnedCapacity.RunKeepsLeast` | health/LearnedCapacityBackupRestore.cpp:25-33 | Over any run the storage holds the running minimum, and so does the hardware after a non-zero reading. |
| `LearnedCapacity.LeastIsMinimum` | health/LearnedCapacityBackupRestore.cpp:65-76 | That minimum is below every non-zero value, is one of them, and is zero only if all are. |
| `LearnedCapacity.StepKeepsAgreement` | health/LearnedCapacityBackupRestore.cpp:65-81 | A zero reading changes neither file; any other leaves both equal. |
| `AudioFlags.Rewrite` | policy_hal/AudioPolicyManager.cpp:1514-1653 | The sequence of assignments is the composition of its steps, and refuses exactly VoIP in a held call. |
| `AudioFlags.HeldCallIsSafe` | policy_hal/AudioPolicyManager.cpp:1521-1654 | In a held call that playback gives way to, nothing but VoIP is offloaded or direct PCM, whatever else goes on, and with FAST to fall back on nothing is deep-buffered but for a recording. |
| `AudioFlags.HeldCallLeaves` | policy_hal/AudioPolicyManager.cpp:1521-1577 | What a held call leaves of the flags for either fallback, for music, other streams and VoIP. |
| `AudioFlags.RecordingLeaves` | policy_hal/AudioPolicyManager.cpp:1578-1604 | What an active recording leaves of the flags. |
| `AudioFlags.ProxyLeaves` | policy_hal/AudioPolicyManager.cpp:1615-1654 | With a proxy device a stream other than music ends with no flags if it asked for a direct output, and with FAST otherwise. |
| `AudioFlags.StreamLeaves` | policy_hal/AudioPolicyManager.cpp:1656-1697 | What open direct PCM and the stream leave of the flags asked for. |
| `AudioFlags.ResolutionIsSafe` | policy_hal/AudioPolicyManager.cpp:1413-1697 | Resolved flags ask for offloading and deep buffering for music only, with a direct stream where implied. |
| `AudioFlags.MixedRequestIsSafe` | policy_hal/AudioPolicyManager.cpp:1818-1848 | A mixed output is asked for non-empty flags, never a direct stream, deep buffering for music only. |
| `AudioFlags.AskedPlainIff` | policy_hal/AudioPolicyManager.cpp:1514-1653 | For a stream other than music the rewriting ends in a plain direct, deep-buffered request exactly under a condition on the request and the configuration. |
| `AudioFlags.PlainDirectIff` | policy_hal/AudioPolicyManager.cpp:1639-1682 | Under that condition, and exactly then, a plain direct request reaches the outputs although it is not for music with offloading enabled. |
| `AudioOutputs.AudioPolicyManager.FindDirect` | policy_hal/AudioPolicyManager.cpp:1747-1763 | Finds an output to reuse exactly when there is one, else the last open one of the profile. |
| `AudioOutputs.AudioPolicyManager.MakeRoom` | policy_hal/AudioPolicyManager.cpp:1745-1776 | Reuse exactly when possible; refusal exactly if the last output of the profile is another client's while the kind asked for is in use; otherwise that last output alone is closed. |
| `AudioOutputs.AudioPolicyManager.DirectOutput` | policy_hal/AudioPolicyManager.cpp:1725-1816 | Takes the course that flags, open outputs and answers ask for, and makes its calls; keeps one output per direct profile, each in use; leaves all other outputs open. |
| `AudioOutputs.AudioPolicyManager.GetOutputForDevices` | policy_hal/AudioPolicyManager.cpp:1393-1858 | Every call of the base class is accounted for: a profile is looked for exactly if the resolved flags or the format call for it and no effect or mono forbids it; then reuse, refusal, opening and the mixed fallback follow exactly as the open outputs and the answers ask; which outputs stay, which count rises, which handle and flags result; VoIP is decided first; plain direct requests slip through exactly under the condition; the single direct stream is kept. |
| `AudioOutputs.AudioPolicyManager.Served` | policy_hal/AudioPolicyManager.cpp:1757-1816 | The handle of a direct output names exactly one open output, which is this client's. |
| `AudioOutputs.AudioPolicyManager.CallsProper` | policy_hal/AudioPolicyManager.cpp:1725-1846 | Every open and every selection has proper flags: offloading and deep buffering for music alone, no direct stream among the mixed. |
| `AudioCourse.DisplacesOthersIf` | policy_hal/AudioPolicyManager.cpp:1745-1776 | Another client's output is closed only for a direct request, if several offloaded streams cannot coexist, and never for a request of its own kind. |
| `AudioCourse.OffloadIsSought` | policy_hal/AudioPolicyManager.cpp:1703-1725 | A request that is resolved to offloading looks for a direct output exactly if no effect or mono forbids it. |
| `AudioCourse.MixedIff` | policy_hal/AudioPolicyManager.cpp:1800-1846 | A mixed output is asked for exactly if no direct one was reused or opened, the request can be mixed, and a failed open was within the sample rate. |

## Left out

- Path lookup, `ioctl`, SCSI node discovery: block size, kind of storage, whether XBL and its backup are
  there, and links are parameters; the XBL boot-LUN switch is a call that succeeds or fails.
- Short transfers in `blk_rw`, allocation failure, freeing memory, null arguments and the truncation
  of paths to PATH_MAX.
- Reordering of writes by a disk cache: writes persist in program order.
- UpdateStages.PreparePartitions: a header whose checksum covers more than its block, and for MAIN a
  primary array that wraps 32 bits or has entries under 128 bytes, are outside `Workable`: the code
  reads past its buffers there.
- GptDisk.Disk.UpdateCrc: a handle whose header checksum has been made to cover more than its block is
  excluded: the code would read past the buffer.
- GptDisk.Disk.Commit: an array that the header makes larger than the handle's buffer is excluded: the
  code would read past it.
- Results that speak of two tables are for good disks only: where the regions overlap there are no two
  tables to speak of, and the lists of writes in `ImagePlans` say what happens.
- `gpt_disk_get_pentry` and `gpt_utils_get_partition_map`: a choice of buffer around the modelled search.
- BootUpdate.PrepareBootUpdate: assumes fewer names than the 26 entries of the list, as the swap list has.
- BatteryText.RoundTrip: decimals that do not fit 32 bits are undefined in C and a mismatch here.
- CycleCount.RunKeepsHighest: is about runs whose file accesses succeed; under failures `Backup` and
  `Restore` promise only what is in memory.
- HealthService.BackupsFollowRise: integers are unbounded; `AccountStaysSmall` bounds them for percentages.
- AudioOutputs.AudioPolicyManager.GetOutputForDevices: closing, profile lookup, opening and selecting
  are of the base class, which is not part of this model; they appear with the least that is needed.
- The numeric values of the audio flags and the names of most formats are not in the repository: flags
  are sets and formats a small type.
- The rest of the audio policy, storage statistics, lights, the Java settings application and all
  service start-up code.
