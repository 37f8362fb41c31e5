# esp-open-rtos: parameter store and kernel, in Dafny

A model of two parts of esp-open-rtos and proofs about it.

**The parameter store** (`core/sysparam.c` over `core/spiflash.c`). Key/value pairs live in one of two flash regions as a log of
entries. Flash can only clear bits, short of erasing a sector, and power may fail between any two flash operations.

- `Bytes` is what the cells hold. `Flash` is the chip and its driver; the chip keeps the history of its contents, which is what a power cut can leave behind.
- `SysparamLog`, `SysparamTable`, `SysparamPack`, `SysparamRegion` and `SysparamBoot` say what bytes mean: entries, rows (a key and
  its live values), the compacted log, region headers, and what a boot from given bytes shows.
- `SysparamFlash`, `SysparamSteps` and `SysparamPlan` follow the writes of an append, a deletion, a compaction and a set, and
  what every cut in between shows.
- `SysparamFull` says when a set is refused in terms of the parameters alone.
- `Sysparam` is the store as a class, method by method as in the C file. `SysparamRun` puts whole runs and reboots together:
  a store answers like a finite map, and a reboot finds what the last complete write left. `SysparamFaults` states exactly
  when it does not.

**The kernel** (`FreeRTOS/Source`).

- `KernelList`: the doubly linked ring of `list.c`, proved to be a sequence.
- `Scheduler`, `SchedulerKernel`, `SchedulerRun`: the ready, delayed, suspended and pending lists of `tasks.c`, against unbounded time;
  `SchedulerLists` ties its ready lists to the linked ones; `SchedulerTurns` says who runs when.
- `Timeouts`: block times and periodic delays on a wrapping tick count.
- `Mutexes`: priority inheritance as a state machine.
- `QueueWakeups`: blocking on queues, interrupts and queue locks, as a state machine; `QueueRing`: the storage of a queue.
- `Timers`: auto-reload timers and their daemon.
- `StreamBuffers`: the byte ring, message framing, and one writer interleaved with one reader on the ring.
- `EventGroups`: bits, waiters and who is woken.

Where the C code changes state in place there is a class whose methods are proved against specification functions; the laws are
lemmas about those functions and about runs of them. Proofs by induction are written out, so every lemma switches automatic
induction off.

## What turned out not to hold

- A set that has to compact to store a value under a key that has lost its value drops the key, appends the value under the old
  id, and reports success: the value belongs to another key or to none (`SysparamFaults.SuccessStoresNothing`). `SysparamPlan.SetRefines`
  says exactly when: the value is stored if and only if the set does not misplace it, and by `SysparamPlan.MisplacesExact` that is
  if and only if the key is known, has no value, everything fits, and the log has no room or a compaction was asked for.
- A cut between writing a new value and deleting the old one leaves both alive. The old one shows, but the next set of that key
  that does not compact brings up the interrupted value instead of its own (`SysparamFaults.InterruptedValueReturns`; exact
  condition in `SysparamFaults.WriteExact`).
- A set that is refused because the area is full may have compacted, and then the key has lost its old value; that happens if and
  only if the key had a value and some key is unused (`SysparamFaults.RefusalLoses`, with an example in `RefusedAndGone`).
- A successful set is torn by a power cut, which then shows the key without any value, if and only if it compacts and the key had
  a value (`SysparamFaults.TornExact`, with an example in `TornSet`).
- Priority inheritance covers all waiters throughout a run if and only if every take is made by a task that outranks those who
  wait for that mutex (`Mutexes.RunExact`). The running task does so unless one of its gives slips: a give that wakes a task does
  not switch for the priority the giver loses, so the giver may go on below a task it woke before (`Mutexes.SlipExact`,
  `Mutexes.SlippedRun`).
- Waiting for a mutex while holding another breaks the law (`Mutexes.NestingBreaks`); an inheritance keeps it if and only if the
  raised holder is on no list whose own holder it would then outrank (`Mutexes.InheritExact`).
- A post from an interrupt while the queue is locked costs a waiting receiver its wakeup if and only if the 8-bit lock count
  cannot take it, there is room for it, and fewer receivers have been woken than there are messages
  (`QueueWakeups.PostExact`, with an example in `TooManyPosts`); a receive likewise (`QueueWakeups.TakeExact`). A reset does if and
  only if one woken sender is not enough (`QueueWakeups.ResetInv`, with an example in `ResetLoses`).
- A start command that is obeyed a wrap or more after it was issued, and does not look a whole period old, loses an instant for a
  whole wrap (`Timers.JudgeExact`, `Timers.ObeyExact`, `Timers.LateRestart`, a whole run in `Timers.MissedInstant`). The daemon's own restart commands can be that late.
- Overwriting a full queue of length one whose items have no bytes leaves a count of two (`QueueRing.CountExact`, with an
  example in `OverwrittenTwice`).
- A running task whose priority falls, with no switch pending, is no longer the highest ready one if and only if another task is
  ready at or below its old priority and above its new one (`Scheduler.LowerServed`, with an example in `FallsBelow`).
- A timeout check is wrong if and only if the tick count has wrapped at least twice, is numerically below the entry tick and fewer
  than the waited ticks past it modulo the wrap (`Timeouts.ExpiredExact`, with an example in `ExpiryMissed`); a periodic delay if
  and only if a whole wrap has passed and the tick count looks less than a period on (`Timeouts.DelayExact`, with an example in
  `WakeMissed`).
- A receive whose room is too small for the message moves the tail past the length and puts it back. A writer that checks for
  room in between may be fooled by those four bytes; order is kept if and only if it is not (`StreamBuffers.CheckExact`,
  `StreamBuffers.RefusedRace`, with an example in `RefusedAndRuined`).

Setting an empty value for a key without a value reports that nothing was found, though the header file describes it as a
deletion; the model follows the code.

## Model

| member | source | states |
|---|---|---|
| `Flash.Chip.WritePage` | core/spiflash.c:84-114 | Writes one page in blocks of at most 64 bytes: the result is one bitwise AND of the data over the cells, and data that would cross the page is refused with nothing written. |
| `Flash.Chip.WritePages` | core/spiflash.c:116-151 | For any address, length and page size the page-split write equals one AND of the whole buffer over `[addr, addr + size)` and touches nothing else; it succeeds exactly if the range is on the chip. |
| `Flash.Chip.Write` | core/spiflash.c:153-174 | A driver write is one step in the history of flash contents that a power cut can leave behind. |
| `Flash.Chip.Read` | core/spiflash.c:192-232 | The 60-byte-chunked read returns exactly the requested bytes, or fails exactly if the range leaves the chip; it changes nothing. |
| `Flash.Chip.EraseSector` | core/spiflash.c:234-259 | Erases exactly one 4096-byte sector, or refuses an address that is off the chip or off a sector boundary. |
| `Flash.ProgramSplit` | core/spiflash.c:116-151 | Programming two adjoining pieces one after the other is programming them at once, whatever the split. |
| `Flash.AndBits` | core/spiflash.c:84-114 | Programming leaves a bit set exactly if it was set and is set in the data. |
| `Flash.AndCleared` | core/sysparam.c:398-408 | Clearing one flag bit of a word and programming the result over the word leaves the result. |
| `SysparamLog.HeadOfWord` | core/sysparam.c:57-71 | Flags and id packed into an entry word come back unchanged, and no valid entry looks like the end mark. |
| `SysparamLog.EntryFormat` | core/sysparam.c:62-102 | An entry on flash is two little-endian words - alive, invalid, value, binary as bits 15 to 12 over the id, and the length - and the data. |
| `SysparamLog.DecodeHeader` | core/sysparam.c:99-102 | Decoding the bytes of entry n of an encoded log gives back its word, its length and its payload. |
| `SysparamLog.FindInLog` | core/sysparam.c:205-281 | Scanning the raw bytes of a region for an id finds the first matching entry of the log the bytes encode, or its end. |
| `SysparamLog.FindStop` | core/sysparam.c:205-281 | Past the last entry the scan stops at the end of the log and nowhere else. |
| `SysparamTable.RowOfKey` | core/sysparam.c:240-271 | Live key entries carry the ids 1, 2, ... in log order, so an id names one row. |
| `SysparamTable.ValueLookup` | core/sysparam.c:311-345 | Searching from a key onwards finds the first live value of its row, which is what a lookup shows. |
| `SysparamTable.NextRow` | core/sysparam.c:311-339 | Searching for any key from an index on finds the next row, if there is one. |
| `SysparamTable.KillValue` | core/sysparam.c:398-408 | Clearing ALIVE of the first live value of a row takes that value, and nothing else, out of the table. |
| `SysparamTable.ViewOfRow` | core/sysparam.c:661-709 | A key is in the parameter map exactly when its row has a live value, and then shows the first one. |
| `SysparamTable.ViewSetRow` | core/sysparam.c:969-990 | Changing the values of one row changes the parameter map at its key only. |
| `SysparamTable.SizeOfLog` | core/sysparam.c:247-271 | Every byte of the log is dead, orphaned or belongs to a row: the accounting a compaction relies on adds up. |
| `SysparamTable.Counted` | core/sysparam.c:240-271 | After m entries the scan has counted exactly the dead bytes, the rows (as highest id) and the keys without values, less orphaned values, of those entries. |
| `SysparamPack.PackedTable` | core/sysparam.c:422-467 | The compacted log stands for the surviving rows, renumbered from 1, and takes exactly the bytes of their keys and first values. |
| `SysparamPack.PackedView` | core/sysparam.c:422-467 | Compaction keeps every parameter except the value it is told to skip. |
| `SysparamPack.PackedRank` | core/sysparam.c:441-467 | A surviving row ends up as row number (surviving rows before it), and its new number never exceeds its old one. |
| `SysparamPack.UnusedDrops` | core/sysparam.c:247-271 | A positive count of unused keys always means that compaction drops a row. |
| `SysparamPack.UnusedCount` | core/sysparam.c:247-271 | In a table with at most one value per key the count of unused keys is positive exactly if there is one, and without any every row keeps its size in a compaction. |
| `SysparamPack.PackedFits` | core/sysparam.c:441-467 | What has been copied before row n together with row n itself fits wherever the log fits, so a compaction never overruns the region. |
| `SysparamRegion.ShapeAppend` | core/sysparam.c:348-395 | Bytes that hold the encoding of one more entry at the end of the log extend the log by that entry. |
| `SysparamRegion.ShapeRehead` | core/sysparam.c:398-408 | Rewriting the header of entry n in the bytes rewrites that entry of the log and no other. |
| `SysparamRegion.HeaderTakes` | core/sysparam.c:348-408 | Programming a header over itself with INVALID or ALIVE cleared stores exactly that header. |
| `SysparamBoot.ParseShape` | core/sysparam.c:205-281 | Parsing undoes encoding: a region that holds a log parses to that log. |
| `SysparamBoot.ReadRegionHeader` | core/sysparam.c:59-61 | A region header that was written reads back as magic number, size and flags. |
| `SysparamBoot.RegionFormat` | core/sysparam.c:19-97 | A region header on flash is the magic number 0x70524f45 and a word with second and active as bits 15 and 14 over the size in sectors. |
| `SysparamBoot.SoundBoots` | core/sysparam.c:501-590 | Booting from a sound pair of regions picks the active one and reads exactly its log. |
| `SysparamBoot.BothActive` | core/sysparam.c:560-572 | With both regions marked active the one at the lower address is chosen, so the map is that of one of the two logs. |
| `SysparamBoot.Switched` | core/sysparam.c:422-485 | Once the old region is marked stale the new one is current. |
| `SysparamBoot.ScanArea` | core/sysparam.c:510-526 | The scan over sector starts comes to the first region of the area that has a header. |
| `SysparamBoot.ScanExact` | core/sysparam.c:501-540 | The scan stops at the first sector that starts like a region; it reports none exactly if no sector before the top does, and an error exactly if it leaves the chip first. |
| `SysparamBoot.NotFoundExact` | core/sysparam.c:501-527 | Nothing is found exactly if none of the sectors looked at - the one the base address is in and, if a top beyond it is given, those below that - starts like a region. |
| `SysparamBoot.PairDiagnosed` | core/sysparam.c:528-572 | From either header of a sound area the boot works out the same two regions and which one is active. |
| `SysparamBoot.MarkedStale` | core/sysparam.c:545-553 | Marking a formatted region stale completes the pair again. |
| `SysparamFlash.WriteAndVerify` | core/sysparam.c:125-140 | The 12-byte-chunked write with read-back reports success exactly if the cells could take the data, and then holds it; every cut differs from the old contents in the written range only. |
| `SysparamFlash.BlankTakes` | core/sysparam.c:125-140 | Erased cells take any data as it is. |
| `SysparamFlash.FormatRegion` | core/sysparam.c:142-150 | Erases exactly the region, header sector first, so that no cut leaves the old header in front of a half-erased region; fails exactly if the region is off a sector boundary or leaves the chip. |
| `SysparamFlash.WriteRegionHeader` | core/sysparam.c:152-183 | Writes a header whose flags tell which of the two regions this is, whether it is active and how big it is. |
| `SysparamFlash.PutEntry` | core/sysparam.c:348-395 | Header marked invalid, payload, header without the mark: at every cut but the last the entry is still marked invalid. |
| `SysparamFlash.ClearAlive` | core/sysparam.c:398-408 | Clears the ALIVE flag of the entry at the address and changes nothing else. |
| `Sysparam.Store.Search` | core/sysparam.c:205-281 | The scan loop over the flash bytes returns what searching the log returns, with unused keys, reclaimable bytes and highest id counted on the way. |
| `Sysparam.Store.FindEntry` | core/sysparam.c:205-281 | As Search; an entry too long for the region ends the scan and asks for a compaction. |
| `Sysparam.Store.Seek` | core/sysparam.c:205-281 | In terms of the log: the first match after entry i, or the end. |
| `Sysparam.Store.ComparePayload` | core/sysparam.c:293-309 | Compares chunk by chunk; says equal exactly if all bytes of the payload equal the given ones. |
| `Sysparam.Store.FindKey` | core/sysparam.c:311-339 | Finds the row of the key among the stored keys, or reports that there is none. |
| `Sysparam.Store.Locate` | core/sysparam.c:311-345 | Finds the row of a key and its first live value, or says which of the two is missing. |
| `Sysparam.CutExact` | core/sysparam.c:840-853 | A key is taken as it is exactly if it has at most 65535 bytes; a longer one loses exactly the multiple of 65536 bytes that its 16-bit length cannot hold. |
| `Sysparam.Store.ReadPayload` | core/sysparam.c:283-291 | Returns exactly the payload bytes of the entry. |
| `Sysparam.Store.Get` | core/sysparam.c:661-709 | Returns exactly the bytes and binary flag stored under the given key, NotFound exactly if that key has no value, NoInit before a boot; only a key of more than 65535 bytes is cut. |
| `Sysparam.Store.WriteEntry` | core/sysparam.c:348-395 | Stores the bytes of the entry and moves the end of the log if it was written there; at every cut before the last write the entry is still marked invalid. |
| `Sysparam.Store.DeleteOld` | core/sysparam.c:398-408 | Deletes the value in use; on a copy left in the stale region it changes no parameter. |
| `Sysparam.Store.IterNext` | core/sysparam.c:1049-1099 | Moves to the next row that has a value and returns its key and its value. |
| `Sysparam.Store.CopyRows` | core/sysparam.c:441-467 | Copies the surviving rows with new ids; the id passed in is replaced by the new id of the same key. |
| `Sysparam.Store.CompactParams` | core/sysparam.c:422-485 | The other region gets the surviving rows and becomes current; a cut before one particular header write shows the old parameters, one from then on the new ones. |
| `Sysparam.Store.Compact` | core/sysparam.c:647-659 | Keeps the parameter map, leaves nothing to reclaim, and a cut after any flash write shows that same map. |
| `Sysparam.Store.SpaceFor` | core/sysparam.c:902-931 | Compacts exactly if the entry does not fit and the counted reclaimable bytes or unused keys promise room. |
| `Sysparam.Store.MakeRoom` | core/sysparam.c:902-967 | Afterwards there is room and an id for the entry, or the area is reported full, as the plan says. |
| `Sysparam.Store.WriteParam` | core/sysparam.c:969-984 | Appends the new value, preceded by its key if that is new. |
| `Sysparam.Store.Finish` | core/sysparam.c:969-990 | Writes the entries of a set, then deletes the old value if it is still there. |
| `Sysparam.Store.Replace` | core/sysparam.c:896-990 | Everything a set does to store a value that differs from the one in use. |
| `Sysparam.Store.SameValue` | core/sysparam.c:881-894 | Says whether the value in use already is the one to be stored, flag and bytes. |
| `Sysparam.Store.Remove` | core/sysparam.c:986-990 | Setting an empty value deletes the parameter; NotFound if there was none. |
| `Sysparam.Store.Set` | core/sysparam.c:840-999 | For the key as given (a longer one than 65535 bytes is cut): the status and new log are those of the plan; a power cut after any flash write shows the old parameters, then, for at least one write and only if it compacts, all but the key, then the new ones; only the cut before a final deletion leaves a second value. A value that is there already costs no write, and a pending request for compaction is met by the next value written. |
| `Sysparam.Store.Init` | core/sysparam.c:501-590 | Reports exactly the status the flash calls for; on a sound area it brings up exactly the parameters the bytes hold, repairs a missing stale region, and cutting it short loses nothing. |
| `Sysparam.Store.FindHeader` | core/sysparam.c:510-526 | Finds the first sector start below the limit that carries the magic number. |
| `Sysparam.Store.PairUp` | core/sysparam.c:528-572 | Reads a header and its partner and decides whether they make an area, and which is active. |
| `Sysparam.Store.Recreate` | core/sysparam.c:545-553 | Formats the missing partner and marks it stale; every cut still boots to the same parameters. |
| `Sysparam.Store.CreateArea` | core/sysparam.c:592-637 | Succeeds exactly if the area is sector-aligned, on the chip and erased (or forced); leaves a sound empty area and nothing outside it touched. |
| `Sysparam.Store.ScanBlank` | core/sysparam.c:606-619 | Says blank only if every byte of the area is erased, not blank only if some byte is not, and fails only if the area leaves the chip. |
| `Sysparam.FreshSound` | core/sysparam.c:627-636 | Two formatted regions with their headers are a sound, empty area. |
| `Sysparam.CompactedAll` | core/sysparam.c:647-659 | Compacting for its own sake keeps the parameters and leaves nothing to reclaim. |
| `SysparamSteps.AppendCuts` | core/sysparam.c:348-395 | Until the last write of an append, a cut shows the parameters that were there before. |
| `SysparamSteps.Appended` | core/sysparam.c:348-395 | Appending an entry switches from the old to the new parameters at exactly one header write. |
| `SysparamSteps.KillDone` | core/sysparam.c:398-408 | Clearing ALIVE of the value in use takes it out of its row in one write. |
| `SysparamSteps.KillStale` | core/sysparam.c:961-990 | Clearing a bit of an old entry in the stale region does not matter. |
| `SysparamSteps.FillCuts` | core/sysparam.c:422-470 | While the other region is erased and filled, every cut shows the current one. |
| `SysparamSteps.SwitchDone` | core/sysparam.c:470-485 | The two header writes that end a compaction show the old or the new parameters, never a mixture, also while both regions say active. |
| `SysparamSteps.CopyRow` | core/sysparam.c:441-467 | The id looked for matches at most once during a compaction, since ids increase and a new id never exceeds the old one. |
| `SysparamPlan.PackedSmaller` | core/sysparam.c:896-931 | Compaction gains at least what the counters promise. |
| `SysparamPlan.WriteView` | core/sysparam.c:969-990 | A successful write sets the key and nothing else exactly if the value is not misplaced. |
| `SysparamPlan.SetRefines` | core/sysparam.c:840-999 | From a settled log a set acts on the parameter map as its status says; a successful one stores the value if and only if it does not misplace it; a compaction-free refusal changes nothing. |
| `SysparamPlan.FullExact` | core/sysparam.c:896-959 | A set is refused as full exactly when the other live parameters plus the new entry do not fit in one region, or no id is left. |
| `SysparamPlan.CompactsExact` | core/sysparam.c:896-967 | A set that stores a value compacts exactly if that was asked for, the log has no room for what it appends, or a new key finds every id taken. |
| `SysparamPlan.MisplacesExact` | core/sysparam.c:896-990 | A set misplaces its value exactly if the key is known, has no value, everything fits, and the set has to compact because that was asked for or the log has no room. |
| `SysparamFull.RefusedExact` | core/sysparam.c:896-959 | A set that does not misplace its value is refused exactly if the map with the new value does not fit into one region, or has more keys than there are ids. |
| `SysparamFull.WeightOfRows` | core/sysparam.c:441-467 | The map weighs exactly the bytes of a compacted log. |
| `SysparamPlan.MoreRoom` | core/sysparam.c:902-959 | A compaction leaves no less room and, if keys are unused, frees an id. |
| `SysparamPlan.ReplaceCuts` | core/sysparam.c:969-990 | Without compaction each cut shows the old or the new value of the key: writing the new value shows nothing yet and leaves two values, deleting the old one switches. |
| `SysparamPlan.JoinCuts` | core/sysparam.c:912-990 | With compaction the cuts show the old parameters, then all but the key (at least one cut does), then the new ones. |
| `SysparamPlan.FullCuts` | core/sysparam.c:912-940 | A refused set that compacted shows the old parameters, then all but the key. |
| `SysparamRun.Iterate` | core/sysparam.c:1027-1099 | A loop over the iterator lists every parameter exactly once, with its value. |
| `SysparamRun.Run` | core/sysparam.c:661-1099 | Every run of sets, gets, iterations and compactions from a settled store answers like a finite map with the keys of the callers that fits into one region - the status of every set included, full exactly if the map would not fit - up to the first set that misplaces its value, if there is one. |
| `SysparamRun.Reboot` | core/sysparam.c:501-590 | Power up on whatever the flash holds: every state that a set, a compaction or an interrupted boot leaves behind shows some map, settled or not, and a fresh start finds exactly that map, just as settled, and the log that holds it. |
| `SysparamRun.CutSettled` | core/sysparam.c:840-999 | A cut during a set that does not misplace its value leaves a log that is not settled if and only if it falls between the write of the new value and the deletion of the old one. |
| `SysparamRun.Record` | core/sysparam.c:840-999 | Every set of a legal key and value leaves a trace of the kind that CutSettled and Resume speak of. |
| `SysparamRun.Resume` | core/sysparam.c:501-1099 | A set, a cut after any of its writes, a fresh start and any run: the start finds the parameters of that cut and, unless the cut fell between the write of the new value and the deletion of the old one, the run answers like a finite map that begins with them. |
| `SysparamRun.FromScratch` | core/sysparam.c:501-1099 | An area is created (succeeding exactly if it is aligned, on the chip and blank or forced) and brought up, and every run on it answers like a finite map with the keys of the callers, bounded by half the area, that starts out empty. |
| `SysparamFaults.WriteExact` | core/sysparam.c:840-999 | Whatever the log, a write acts as a map update if and only if it is not misplaced and no older second value comes to light. |
| `SysparamFaults.TornExact` | core/sysparam.c:840-999 | Some power cut of a successful set shows neither the old nor the new parameters if and only if the set compacts and the key had a value. |
| `SysparamFaults.TornSet` | core/sysparam.c:912-990 | Replacing a value in a region nearly full of dead bytes succeeds and is torn by a cut. |
| `SysparamFaults.InterruptedValueReturns` | core/sysparam.c:979-990 | After a cut between writing a value and deleting the old one, the next set that does not compact shows the interrupted value instead of its own. |
| `SysparamFaults.RefusalLoses` | core/sysparam.c:912-940 | A refused set leaves the parameters alone if and only if the key had no value or no key was unused. |
| `SysparamFaults.RefusedAndGone` | core/sysparam.c:912-940 | With one deleted key in the log, a value too large for the region is refused and the old value is gone. |
| `SysparamFaults.SuccessStoresNothing` | core/sysparam.c:840-999 | In a region nearly full of dead bytes, setting a key that has lost its value reports success and stores nothing. |
| `KernelList.List.constructor` | FreeRTOS/Source/list.c:37-60 | An initialised list is a ring of its own sentinel and holds nothing. |
| `KernelList.List.InsertEnd` | FreeRTOS/Source/list.c:74-101 | The linked ring becomes the old one with the item right before the index; links, containers, count and all values stay consistent. |
| `KernelList.List.FindSpot` | FreeRTOS/Source/list.c:109-151 | The walk ends, behind every item whose value is not greater. |
| `KernelList.List.Insert` | FreeRTOS/Source/list.c:103-168 | The items become the old ones with the new one at the first position that holds a greater value. |
| `KernelList.List.Remove` | FreeRTOS/Source/list.c:170-196 | The ring without the item; an index on it steps back, its container becomes null, the count is what is left. |
| `KernelList.List.Next` | FreeRTOS/Source/include/list.h:277-288 | The index moves to the next item and passes over the sentinel. |
| `KernelList.InsertSorted` | FreeRTOS/Source/list.c:103-168 | Insertion keeps the order of values, is stable for equal ones, and removing the item gives back the list. |
| `KernelList.RemoveUndoesInsert` | FreeRTOS/Source/list.c:103-196 | Removing what was inserted gives back the list, for any position. |
| `KernelList.List.InsertAndRemove` | FreeRTOS/Source/list.c:103-196 | Removing an item just inserted in order gives back the items, the index and the count. |
| `KernelList.List.InsertEndAndRemove` | FreeRTOS/Source/list.c:74-196 | So does removing one just put in before the index. |
| `KernelList.WalkVisits` | FreeRTOS/Source/include/list.h:277-288 | Walking n items with the index visits each of them once in n steps, the starting one last. |
| `KernelList.Spliced` | FreeRTOS/Source/list.c:74-168 | Rewiring the two neighbours of a gap puts the new node there and keeps the ring linked both ways. |
| `KernelList.Unspliced` | FreeRTOS/Source/list.c:170-196 | Unlinking a node closes the gap and keeps the ring linked both ways. |
| `Scheduler.TickExact` | FreeRTOS/Source/tasks.c:2664-2773 | A tick readies exactly the tasks due at the new time, in unbounded time, and keeps every list invariant. |
| `Scheduler.TurnBasic` | FreeRTOS/Source/tasks.c:198-210 | The current delayed list is empty whenever the tick count wraps, and then the overflow list takes its place. |
| `Scheduler.TickDueInv` | FreeRTOS/Source/tasks.c:2697-2773 | Working off the delayed list readies the tasks that are due and no others, and leaves the next unblock time no later than the head. |
| `Scheduler.BlockInv` | FreeRTOS/Source/tasks.c:5080-5189 | A task that blocks for n >= 1 ticks at time T goes to the list of its wake era, is due at T + n, and all invariants hold. |
| `Scheduler.SleepersAreDueLater` | FreeRTOS/Source/tasks.c:2664-2773 | In every state that keeps the invariant a sleeping task is due strictly later than now. |
| `Scheduler.ReleaseInv` | FreeRTOS/Source/tasks.c:3093-3140 | A blocked task goes from whichever list it is in to the ready list of its priority. |
| `Scheduler.RemoveFromEventInv` | FreeRTOS/Source/tasks.c:3093-3158 | A task whose event came is readied, or kept pending while the scheduler is suspended. |
| `Scheduler.DrainInv` | FreeRTOS/Source/tasks.c:2197-2215 | Resuming moves every pending task to the ready list of its priority. |
| `Scheduler.ReplayExact` | FreeRTOS/Source/tasks.c:2231-2256 | Replaying n pended ticks takes time forward by n and readies exactly the sleepers due by then. |
| `Scheduler.ResumeExact` | FreeRTOS/Source/tasks.c:2173-2280 | Resuming loses nothing: pending tasks are ready, time has moved by the pended ticks, and exactly the sleepers due by then are ready. |
| `Scheduler.SwitchExact` | FreeRTOS/Source/tasks.c:123-148 | An unsuspended switch picks a ready task, no ready task has a higher priority, and the recorded top is exact. |
| `SchedulerTurns.RoundRobin` | FreeRTOS/Source/tasks.c:2946-3016 | With n tasks in the highest ready list, n switches in a row bring up each of them exactly once, in the order of their turns. |
| `SchedulerTurns.SwitchTurns` | FreeRTOS/Source/tasks.c:133-148 | A switch runs the task whose turn it is, which goes to the end of the turns; nothing else changes. |
| `SchedulerTurns.TurnsInsert` | FreeRTOS/Source/list.c:74-101 | A task that becomes ready waits for the turns of everybody else on its list, except the one that had the last turn. |
| `SchedulerTurns.TurnsRemove` | FreeRTOS/Source/list.c:170-196 | A task that leaves its list gives up its turn, and nobody else's changes. |
| `SchedulerTurns.TickSwitchExact` | FreeRTOS/Source/tasks.c:2664-2817 | A tick asks for a switch exactly if, once it is over, another task of at least the running priority is ready. |
| `SchedulerTurns.RivalExact` | FreeRTOS/Source/tasks.c:2690-2773 | The loop of a tick meets a rival exactly if one of the tasks it readies has at least the running priority. |
| `SchedulerTurns.TickKnown` | FreeRTOS/Source/tasks.c:2664-2773 | After a tick the recorded next unblock time is that of the head of the delayed list, if it was before, or if the tick worked off the list or exchanged the lists. |
| `SchedulerTurns.BlockKnown` | FreeRTOS/Source/tasks.c:5080-5189 | A task that blocks keeps the recorded next unblock time that of the head of the delayed list. |
| `SchedulerTurns.EventYields` | FreeRTOS/Source/tasks.c:3093-3158 | An event asks for a switch exactly if it readies a task above the running one, or one was asked for before. |
| `SchedulerTurns.DrainYields` | FreeRTOS/Source/tasks.c:2173-2220 | The end of a suspension asks for a switch exactly if one was asked for or one of the tasks readied meanwhile has at least the running priority. |
| `SchedulerTurns.Nested` | FreeRTOS/Source/tasks.c:2100-2280 | n suspensions take n resumptions: each but the last only takes back one of them. |
| `SchedulerTurns.Frozen` | FreeRTOS/Source/tasks.c:2100-3016 | While the scheduler is suspended, ticks, events and switches change no list of tasks that can run; they are pended. |
| `Scheduler.TopIsExact` | FreeRTOS/Source/tasks.c:133-148 | Nothing is ready above the list at which the downward scan stops. |
| `Scheduler.TickServed` | FreeRTOS/Source/tasks.c:2664-2830 | A tick that calls for no switch leaves no ready task above the running one. |
| `Scheduler.EventServed` | FreeRTOS/Source/tasks.c:3093-3158 | So does an event, unless it asks for a switch. |
| `Scheduler.RaiseServed` | FreeRTOS/Source/tasks.c:3950-4030 | Changing the priority of another task leaves nobody ready above the running one if and only if a switch is pending, the task is not ready, or it is not raised above the running one. |
| `Scheduler.LowerServed` | FreeRTOS/Source/tasks.c:4037-4110 | A running task that falls to a lower priority is still at the top if and only if a switch is pending or nothing else is ready at or below its old priority and above the new one. |
| `Scheduler.FallsBelow` | FreeRTOS/Source/tasks.c:4037-4110 | A running task that falls from priority 2 to 0 while another is ready at 1 is no longer the one to run. |
| `Scheduler.ReprioritiseInv` | FreeRTOS/Source/tasks.c:3950-4212 | A task whose priority is inherited or given back stays in the same kind of list, in the one of its new priority if it is ready. |
| `Scheduler.IntroduceInv` | FreeRTOS/Source/tasks.c:1072-1152 | A task created while the scheduler runs is ready at its priority and nothing else moves. |
| `Scheduler.BootInv` | FreeRTOS/Source/tasks.c:3545-3574 | The initial lists, with the idle task ready, satisfy every invariant. |
| `SchedulerRun.StepInv` | FreeRTOS/Source/tasks.c:2173-5189 | Every step - tick, delay, wait, event, suspend, resume, switch, change of priority, creation - keeps the invariants. |
| `SchedulerRun.StepServed` | FreeRTOS/Source/tasks.c:2173-5189 | Every step leaves no ready task above the running one, unless it is one that the code follows by a switch; a switch restores this whatever came before. |
| `SchedulerRun.SwitchServed` | FreeRTOS/Source/tasks.c:2946-3016 | After a switch no ready task outranks the running one or, while the scheduler is suspended, the switch is left pending. |
| `SchedulerRun.ResumeServed` | FreeRTOS/Source/tasks.c:2173-2270 | Resuming the scheduler moves the pending tasks and replays the ticks, and leaves no ready task above the running one without a switch on its way. |
| `SchedulerRun.OneList` | FreeRTOS/Source/tasks.c:2173-5189 | In every state a run reaches, each task is in exactly one state list, a ready one in that of its priority only, and nothing is ready above the recorded top. |
| `SchedulerRun.RunServed` | FreeRTOS/Source/tasks.c:2173-5189 | In every run in which a switch follows whenever a step asks for one, nobody who is ready outranks the running task at the end, unless a switch is already on its way. |
| `SchedulerRun.WakesOnTime` | FreeRTOS/Source/tasks.c:2664-2773 | In any run a task that blocked until a time and is signalled no event sleeps exactly as long as the time is before it, and is ready when it comes. |
| `SchedulerRun.SleepsExactly` | FreeRTOS/Source/tasks.c:5080-5189 | In any run a task that delays for n ticks, or waits at most n ticks for an event that does not come, is not ready before n ticks have passed, and is ready then. |
| `SchedulerRun.WaitsForever` | FreeRTOS/Source/tasks.c:5080-5189 | In any run a task that waits without limit stays off the ready lists until an event is signalled to it. |
| `SchedulerRun.NoTickLost` | FreeRTOS/Source/tasks.c:2173-2773 | Whatever is suspended and resumed, every tick of a run is counted, or still pended, exactly once. |
| `SchedulerKernel.Kernel.AddToReady` | FreeRTOS/Source/tasks.c:218-222 | Adds the task at the end of its ready list and records the priority, as the specification function says. |
| `SchedulerKernel.Kernel.ChangePriority` | FreeRTOS/Source/tasks.c:3950-4212 | The in-place move to another ready list is the specified change of priority and keeps the invariants. |
| `SchedulerKernel.Kernel.UnblockDue` | FreeRTOS/Source/tasks.c:2697-2773 | The loop over the delayed list is the specified one and reports a due task that rivals the running one. |
| `SchedulerKernel.Kernel.TurnOver` | FreeRTOS/Source/tasks.c:2676-2691 | The tick count moves on and the lists change places exactly at a wrap. |
| `SchedulerKernel.Kernel.ResetNextUnblock` | FreeRTOS/Source/tasks.c:3879-3900 | The next unblock time is the head of the delayed list, or the maximum if that is empty. |
| `SchedulerKernel.Kernel.IncrementTick` | FreeRTOS/Source/tasks.c:2664-2830 | One tick of real time passes, counted now or pended, and the result says whether to switch. |
| `SchedulerKernel.Kernel.AddCurrentToDelayed` | FreeRTOS/Source/tasks.c:5080-5189 | The running task goes where its wake time belongs; the invariants hold. |
| `SchedulerKernel.Kernel.PlaceOnEventList` | FreeRTOS/Source/tasks.c:3019-3033 | The running task waits for an event and for its time, whichever comes first. |
| `SchedulerKernel.Kernel.RemoveFromEventList` | FreeRTOS/Source/tasks.c:3093-3158 | The task becomes ready or pending; returns whether it outranks the running one. |
| `SchedulerKernel.Kernel.SuspendScheduler` | FreeRTOS/Source/tasks.c:2100-2107 | Raises the suspension count only. |
| `SchedulerKernel.Kernel.ReadyPending` | FreeRTOS/Source/tasks.c:2197-2215 | The loop over the pending list is the specified draining. |
| `SchedulerKernel.Kernel.ReplayTicks` | FreeRTOS/Source/tasks.c:2231-2256 | The loop over pended ticks is the specified replay; real time is unchanged by it. |
| `SchedulerKernel.Kernel.ResumeScheduler` | FreeRTOS/Source/tasks.c:2173-2280 | The whole resumption as specified; the invariants hold and real time is unchanged. |
| `SchedulerKernel.Kernel.ScanDown` | FreeRTOS/Source/tasks.c:133-142 | The downward scan ends at the highest priority that has a ready task. |
| `SchedulerKernel.Kernel.SwitchTask` | FreeRTOS/Source/tasks.c:2946-3016 | The running task afterwards is ready and no ready task has a higher priority, unless the scheduler is suspended. |
| `SchedulerLists.ReadyInsert` | FreeRTOS/Source/list.c:74-101 | Inserting at the end of the linked list is inserting into the ready list of the scheduler model. |
| `SchedulerLists.ReadyRemove` | FreeRTOS/Source/list.c:170-196 | Removing from the linked list is removing from the ready list of the scheduler model, index included. |
| `SchedulerLists.ReadyNext` | FreeRTOS/Source/include/list.h:277-288 | Taking the next entry of the linked list is the round-robin step of the scheduler model. |
| `Timeouts.TimeOut.Check` | FreeRTOS/Source/tasks.c:3215-3275 | Reports expiry, the remaining wait and the new starting point as the tick arithmetic with wrap says. |
| `Timeouts.ExpiredExact` | FreeRTOS/Source/tasks.c:3215-3275 | A wait without limit never expires; of any other the report equals true elapsed time >= wait unless, and only unless, the count has wrapped at least twice, stands below the entry tick and is fewer than the waited ticks past it modulo the wrap. |
| `Timeouts.ExpiryMissed` | FreeRTOS/Source/tasks.c:3215-3275 | Two wraps after tick 10, at tick 0, a wait of five ticks less than a wrap is not seen to be over. |
| `Timeouts.CheckAll` | FreeRTOS/Source/tasks.c:3195-3275 | A call that checks again and again gives up at the first check at which the whole time since its start has reached the original wait, and not before; one that may wait without limit never does. |
| `Timeouts.DelayUntil` | FreeRTOS/Source/tasks.c:1249-1312 | The decision of the periodic delay: next wake time, and whether and how long to sleep. |
| `Timeouts.DelayExact` | FreeRTOS/Source/tasks.c:1249-1312 | It sleeps exactly if the unbounded wake time is in the future, and exactly until then; fails only when a whole wrap or more has passed. |
| `Timeouts.WakeMissed` | FreeRTOS/Source/tasks.c:1249-1312 | A wrap and a tick after its last wake time a task of period 100 still goes to sleep. |
| `Timeouts.Periodic` | FreeRTOS/Source/tasks.c:1249-1312 | However late each call comes (up to one wrap), wake time k is the start plus k periods and call k returns then or, if that is past, at once. |
| `Mutexes.TakeInv` | FreeRTOS/Source/queue.c:1445-1475 | Taking a free mutex that nobody above the taker waits for keeps all invariants. |
| `Mutexes.TakeExact` | FreeRTOS/Source/queue.c:1445-1475 | Taking a free mutex keeps the law if and only if the taker outranks those who wait for it. |
| `Mutexes.TakenExact` | FreeRTOS/Source/queue.c:1445-1475 | The taker holds the mutex and one more than before; no priority and no list changes. |
| `Mutexes.WaitInv` | FreeRTOS/Source/queue.c:1544-1566 | Going to wait for a held mutex raises the holder at least to the waiter, in the ordered event list. |
| `Mutexes.WaitExact` | FreeRTOS/Source/tasks.c:3950-4030 | The holder is raised exactly to the higher of its own and the waiter's priority; nobody else is, and only the waiter joins the list. |
| `Mutexes.WaitOrder` | FreeRTOS/Source/tasks.c:3019-3033 | The waiter goes behind those of its own priority and in front of those below it. |
| `Mutexes.InheritedExact` | FreeRTOS/Source/tasks.c:3950-4030 | The reported inheritance is true exactly if the waiter is above the holder's base priority. |
| `Mutexes.GiveInv` | FreeRTOS/Source/queue.c:2083-2087 | Giving a mutex back returns the holder to its base priority when it holds no other, frees the mutex and wakes the highest waiter. |
| `Mutexes.GiveExact` | FreeRTOS/Source/queue.c:840-866 | A give wakes the first waiter, which nobody on the list outranks, puts the giver back to its base priority exactly if it holds nothing else, and switches exactly if the woken task then outranks the giver or, with nobody to wake, if the giver's priority changed. |
| `Mutexes.SlipExact` | FreeRTOS/Source/queue.c:840-866 | A giver that outranks all woken tasks and is not switched away still does if and only if the give does not slip, that is, wake a task that is not above its base priority while it falls to that base below another woken task. |
| `Mutexes.TimeOutInv` | FreeRTOS/Source/tasks.c:2700-2773 | A waiter whose time is up leaves the list and nobody else moves. |
| `Mutexes.TimeOutExact` | FreeRTOS/Source/tasks.c:2664-2773 | Only the task whose time is up leaves the list, and the others keep their order. |
| `Mutexes.StopInv` | FreeRTOS/Source/queue.c:1584-1625 | A woken task that finds the mutex taken again stops without harm. |
| `Mutexes.StopExact` | FreeRTOS/Source/queue.c:1584-1625 | A task that has stopped trying no longer counts as woken for that mutex; nothing else changes. |
| `Mutexes.FallBackInv` | FreeRTOS/Source/tasks.c:4117-4212 | After a timeout the holder falls back to the higher of its base and the highest remaining waiter. |
| `Mutexes.FallBackExact` | FreeRTOS/Source/tasks.c:4117-4212 | After a timeout a holder of one mutex falls back to exactly the highest of its base priority and of those who still wait; a holder of several, and every other task, keeps its priority. |
| `Mutexes.StepInv` | FreeRTOS/Source/tasks.c:3950-4212 | Every step keeps every invariant, as long as no take is made over the heads of waiters. |
| `Mutexes.InitialInv` | FreeRTOS/Source/queue.c:429-480 | Free mutexes and tasks at their base priorities satisfy every invariant. |
| `Mutexes.RunSafe` | FreeRTOS/Source/tasks.c:3950-4212 | In every state of every run without a slip: a holder outranks or equals every waiter on its mutexes, the held counts are right, a mutex is free or held, and a task that holds none runs at its base priority. |
| `Mutexes.RunTight` | FreeRTOS/Source/tasks.c:3950-4212 | In every run without a slip in which nobody holds two mutexes at a time, a holder's priority is exactly the highest of its base priority and those who wait for its mutex, unless a waiter has timed out and the holder has not been seen to since. |
| `Mutexes.RunExact` | FreeRTOS/Source/tasks.c:3950-4212 | The law holds throughout a run if and only if every take is made by a task that outranks those who wait for that mutex. |
| `Mutexes.AlwaysLeads` | FreeRTOS/Source/queue.c:840-866 | In a run without a slip the running task always outranks the woken ones, so every take is of that kind. |
| `Mutexes.SlippedRun` | FreeRTOS/Source/queue.c:840-866 | A run from the start, without nested waiting, in which a give slips and a task of priority 1 ends up holding a mutex that one of priority 4 waits for. |
| `Mutexes.NestingBreaks` | FreeRTOS/Source/tasks.c:3950-4030 | With nested waiting the law fails: a concrete state in which a holder stays below a waiter. |
| `Mutexes.InheritExact` | FreeRTOS/Source/tasks.c:3950-4030 | Raising a holder keeps the law if and only if it is on no list whose own holder it would then outrank. |
| `Mutexes.MutexKernel.PriorityInherit` | FreeRTOS/Source/tasks.c:3950-4030 | The in-place update is the specified inheritance; says whether it took place. |
| `Mutexes.MutexKernel.PriorityDisinherit` | FreeRTOS/Source/tasks.c:4037-4110 | The in-place update is the specified return to the base priority. |
| `Mutexes.MutexKernel.DisinheritAfterTimeout` | FreeRTOS/Source/tasks.c:4117-4212 | The in-place update is the specified fall back. |
| `Mutexes.MutexKernel.TryTake` | FreeRTOS/Source/queue.c:1445-1500 | Takes the mutex exactly if it is free; the invariants hold afterwards if and only if nothing was taken over the heads of waiters. |
| `Mutexes.MutexKernel.Block` | FreeRTOS/Source/queue.c:1544-1566 | Blocks on a held mutex with inheritance, keeping the invariants. |
| `Mutexes.MutexKernel.GiveBack` | FreeRTOS/Source/queue.c:747-875 | The holder gives the mutex back and the first waiter is woken, keeping the invariants; says whether a switch follows. |
| `QueueWakeups.SendInv` | FreeRTOS/Source/queue.c:766-830 | A send keeps every invariant. |
| `QueueWakeups.SendWakes` | FreeRTOS/Source/queue.c:766-830 | A post that finds room wakes exactly the first waiting receiver. |
| `QueueWakeups.ReceiveInv` | FreeRTOS/Source/queue.c:1297-1330 | A receive keeps every invariant. |
| `QueueWakeups.ReceiveWakes` | FreeRTOS/Source/queue.c:1297-1330 | A receive that finds a message wakes exactly the first waiting sender. |
| `QueueWakeups.PeekInv` | FreeRTOS/Source/queue.c:1657-1700 | A peek keeps every invariant and passes the wakeup on. |
| `QueueWakeups.PeekWakes` | FreeRTOS/Source/queue.c:1657-1700 | A peek that finds a message wakes exactly the first waiting receiver and takes nothing. |
| `QueueWakeups.SendFromISRInv` | FreeRTOS/Source/queue.c:957-1105 | A post from an interrupt, counted into the lock while the queue is locked, keeps every invariant, the sign of the lock count among them, if and only if the 8-bit count can take it. |
| `QueueWakeups.PostWakes` | FreeRTOS/Source/queue.c:957-1105 | A post from an interrupt wakes the first waiting receiver, or nobody yet if the queue is locked, which then counts it. |
| `QueueWakeups.ReceiveFromISRInv` | FreeRTOS/Source/queue.c:1781-1869 | So does a receive from an interrupt. |
| `QueueWakeups.TakeWakes` | FreeRTOS/Source/queue.c:1781-1869 | A receive from an interrupt wakes the first waiting sender, or nobody yet if the queue is locked, which then counts it. |
| `QueueWakeups.PostExact` | FreeRTOS/Source/queue.c:957-2253 | A post while the queue is locked costs nobody a wakeup, once the queue has been unlocked, if and only if the 8-bit count can take it, there is no room for it, no receiver waits, or as many receivers as messages have been woken already. |
| `QueueWakeups.TakeExact` | FreeRTOS/Source/queue.c:1781-2283 | The same for a receive and the senders, while the second half of the unlock is still to come. |
| `QueueWakeups.ResetInv` | FreeRTOS/Source/queue.c:255-305 | A reset keeps every invariant if and only if the one sender it wakes is enough. |
| `QueueWakeups.ResetWakes` | FreeRTOS/Source/queue.c:255-305 | A reset empties the queue and wakes exactly the first waiting sender. |
| `QueueWakeups.LockedInv` | FreeRTOS/Source/queue.c:240-252 | What a blocking task does between locking and unlocking keeps every invariant. |
| `QueueWakeups.BlocksExact` | FreeRTOS/Source/queue.c:240-252 | A task blocks only if it has seen the queue empty (or full), and then waits at its place. |
| `QueueWakeups.TimeOutExact` | FreeRTOS/Source/tasks.c:2664-2773 | A task whose time is up, and nobody else, leaves its list. |
| `QueueWakeups.UnlockInv` | FreeRTOS/Source/queue.c:2167-2284 | Unlocking turns the counted posts and receives into wakeups. |
| `QueueWakeups.UnlockExact` | FreeRTOS/Source/queue.c:2167-2284 | Unlocking wakes exactly as many tasks as were counted, the first on the list first; the others keep their order. |
| `QueueWakeups.StepInv` | FreeRTOS/Source/queue.c:747-2284 | Every step keeps every invariant. |
| `QueueWakeups.NoLostWakeup` | FreeRTOS/Source/queue.c:747-2284 | In every state of every run in which the queue is unlocked: if a receiver waits, every message has a woken receiver yet to try for it; dually for senders and free slots. |
| `QueueWakeups.Balance` | FreeRTOS/Source/queue.c:747-2284 | In every run the number of messages is that of posts that found room less that of receives that found one, from the last reset on. |
| `QueueWakeups.TooManyPosts` | FreeRTOS/Source/queue.c:1085-1092 | The limit of 127 posts in one lock window is real: with one more the count turns negative and the unlock wakes nobody. |
| `QueueWakeups.ResetLoses` | FreeRTOS/Source/queue.c:255-305 | A reset of a full queue of two with two waiting senders leaves a slot that nobody has been woken for. |
| `QueueWakeups.Queue.TrySend` | FreeRTOS/Source/queue.c:766-830 | The critical section of a send is the specified step. |
| `QueueWakeups.Queue.TryReceive` | FreeRTOS/Source/queue.c:1297-1330 | The critical section of a receive is the specified step. |
| `QueueWakeups.Queue.PostFromISR` | FreeRTOS/Source/queue.c:957-1105 | Posting from an interrupt is the specified step, with the exact condition for the invariants. |
| `QueueWakeups.Queue.TakeFromISR` | FreeRTOS/Source/queue.c:1781-1869 | Receiving from an interrupt is the specified step, with the exact condition for the invariants. |
| `QueueWakeups.Queue.Clear` | FreeRTOS/Source/queue.c:255-305 | The reset is the specified step, with the exact condition for the invariants. |
| `QueueWakeups.Queue.UnlockTransmit` | FreeRTOS/Source/queue.c:2175-2253 | The first unlock loop wakes one receiver per counted post, as specified. |
| `QueueWakeups.Queue.UnlockReceive` | FreeRTOS/Source/queue.c:2256-2283 | The second unlock loop wakes one sender per counted receive, as specified. |
| `QueueRing.Ring.constructor` | FreeRTOS/Source/queue.c:255-268 | A new queue is a well-formed ring with no items, for every length and item size. |
| `QueueRing.Ring.Clear` | FreeRTOS/Source/queue.c:255-268 | A reset empties the deque. |
| `QueueRing.Ring.CopyIn` | FreeRTOS/Source/queue.c:2070-2146 | Copying an item in is pushing it at the back or the front of the deque, or replacing the only item. |
| `QueueRing.Ring.CopyOut` | FreeRTOS/Source/queue.c:2149-2164 | Copies out exactly the first item of the deque. |
| `QueueRing.Ring.Post` | FreeRTOS/Source/queue.c:747-774 | Answers and stores as the bounded deque does, and keeps the ring well formed exactly if no semaphore that holds a count is overwritten. |
| `QueueRing.Ring.Fetch` | FreeRTOS/Source/queue.c:1297-1310 | Answers and removes as the bounded deque does. |
| `QueueRing.Ring.Look` | FreeRTOS/Source/queue.c:1661-1676 | Answers the first item and leaves everything unchanged. |
| `QueueRing.Ring.Run` | FreeRTOS/Source/queue.c:747-2164 | Any run of calls on the byte ring leaves the items and gives the answers of the bounded deque. |
| `QueueRing.FirstInFirstOut` | FreeRTOS/Source/queue.c:2096-2108 | When items are sent to the back only, those accepted come out in order: initial items + accepted = taken + left. |
| `QueueRing.NothingLost` | FreeRTOS/Source/queue.c:2070-2164 | Whatever the mix of ends, no item is lost, repeated or made up. |
| `QueueRing.FrontIsNext` | FreeRTOS/Source/queue.c:2109-2136 | An item sent to the front is accepted exactly if there is room; the next peek and the next receive answer it, and receiving it leaves the items there were. |
| `QueueRing.LastInFirstOut` | FreeRTOS/Source/queue.c:2109-2136 | Items sent to the front come out in reverse order, and what was there before stays. |
| `QueueRing.BackIsLast` | FreeRTOS/Source/queue.c:2096-2108 | An item sent to the back is accepted exactly if there is room, and comes out after all the others. |
| `QueueRing.OverwriteIsNext` | FreeRTOS/Source/queue.c:2109-2136 | After an overwrite the next peek and receive answer the new item, and the one it replaced is not seen again. |
| `QueueRing.PeekIsReceive` | FreeRTOS/Source/queue.c:1297-1676 | A peek answers what the next receive answers, which is Empty exactly if nothing is there, as after a reset. |
| `QueueRing.OverwriteExact` | FreeRTOS/Source/queue.c:2109-2136 | Overwriting keeps read and write position consistent if and only if the length is 1 or the queue is empty. |
| `QueueRing.CountExact` | FreeRTOS/Source/queue.c:2079-2143 | After a send that passes the guard the count is within the length unless a full queue of zero-size items was overwritten. |
| `QueueRing.OverwrittenTwice` | FreeRTOS/Source/queue.c:2079-2143 | A queue of one item of no bytes that is sent to and then overwritten counts two. |
| `Timers.JudgeExact` | FreeRTOS/Source/timers.c:668-706 | The judgement tells truly whether the timer has expired if and only if the command is less than a wrap old or looks a whole period old all the same; and then the list it names is the right one, in unbounded time. |
| `Timers.ExpireInv` | FreeRTOS/Source/timers.c:482-520 | An expired timer is called for its instant and its next instant is kept in exactly one list or command. |
| `Timers.SwitchOneInv` | FreeRTOS/Source/timers.c:857-905 | At a wrap every timer left in the current list has expired; each round calls it and keeps its next instant. |
| `Timers.SwapInv` | FreeRTOS/Source/timers.c:906-913 | With the current list empty the overflow list takes its place. |
| `Timers.SwitchShrinks` | FreeRTOS/Source/timers.c:857-905 | The switch loop ends: each round brings the list closer to empty, since a timer that goes back has a later value. |
| `Timers.ObeyInv` | FreeRTOS/Source/timers.c:766-799 | A start command that is obeyed in time loses no instant. |
| `Timers.ObeyExact` | FreeRTOS/Source/timers.c:766-799 | Obeying a start command keeps the next instant of its timer on record if and only if it is obeyed in time. |
| `Timers.LateRestart` | FreeRTOS/Source/timers.c:857-913 | A timer found at the switch nearly a wrap late, whose restart is then obeyed a wrap after its expiry, has an instant put off by a whole wrap. |
| `Timers.MissedInstant` | FreeRTOS/Source/timers.c:381-913 | A run from the creation of the daemon on, with every sample at most a wrap after the one before, after which the daemon has nothing left to do, two instants of a timer have passed and one callback was made. |
| `Timers.StartInv` | FreeRTOS/Source/timers.c:381-420 | A start command issued at any time records the timer's first instant. |
| `Timers.ExactlyOnce` | FreeRTOS/Source/timers.c:482-520 | Once the daemon has caught up, instant k has been called if and only if it is not in the future, as callback number k. |
| `Timers.RunExact` | FreeRTOS/Source/timers.c:482-913 | In every run, whenever the daemon has caught up, each started timer has had exactly one callback per instant up to the present, in order. |
| `Timers.StartedExact` | FreeRTOS/Source/timers.c:381-913 | In every run a timer started at a tick is called for start + period, start + 2 * period and so on: whenever the daemon has caught up, callback k has been made exactly if its instant is not in the future. |
| `Timers.NextIsAhead` | FreeRTOS/Source/timers.c:619-643 | Once the daemon has caught up, the next instant of every timer is in the future. |
| `Timers.TimerTask.Place` | FreeRTOS/Source/timers.c:668-706 | Inserts into the list the judgement names, or queues a new start command. |
| `Timers.TimerTask.ProcessExpired` | FreeRTOS/Source/timers.c:482-520 | One callback for the head of the current list, and the specified new state. |
| `Timers.TimerTask.SwitchLists` | FreeRTOS/Source/timers.c:857-913 | The switching loop ends in the specified state; earlier callbacks stay recorded. |
| `Timers.TimerTask.SampleTime` | FreeRTOS/Source/timers.c:645-666 | Samples the time and switches the lists exactly at a wrap. |
| `Timers.TimerTask.ProcessCommand` | FreeRTOS/Source/timers.c:709-799 | A start command is obeyed: placed, or called at once and started again; the books stay right if and only if it is obeyed in time. |
| `Timers.TimerTask.Start` | FreeRTOS/Source/timers.c:381-420 | Queues the command with its time; the timer's start is recorded. |
| `StreamBuffers.PrefixRoundTrip` | FreeRTOS/Source/stream_buffer.c:684-692 | The length written in front of a message is read back unchanged. |
| `StreamBuffers.FramesAppend` | FreeRTOS/Source/stream_buffer.c:661-710 | Appending a message appends its length and its bytes. |
| `StreamBuffers.FirstFrame` | FreeRTOS/Source/stream_buffer.c:918-967 | The front of the buffer is the length and the bytes of the first message. |
| `StreamBuffers.Written` | FreeRTOS/Source/stream_buffer.c:1088-1131 | The two copies of a write put the data behind the contents, around the end of the buffer. |
| `StreamBuffers.ReadOut` | FreeRTOS/Source/stream_buffer.c:1134-1186 | The two copies of a read take the first bytes of the contents. |
| `StreamBuffers.StreamBuffer.SpacesAvailable` | FreeRTOS/Source/stream_buffer.c:470-491 | The space is the length less one less the bytes held. |
| `StreamBuffers.StreamBuffer.BytesInBuffer` | FreeRTOS/Source/stream_buffer.c:1189-1206 | The number of bytes held. |
| `StreamBuffers.StreamBuffer.WriteBytes` | FreeRTOS/Source/stream_buffer.c:1088-1131 | Appends the data to the contents. |
| `StreamBuffers.StreamBuffer.ReadBytes` | FreeRTOS/Source/stream_buffer.c:1134-1186 | Returns and removes the first bytes of the contents. |
| `StreamBuffers.StreamBuffer.SendMessage` | FreeRTOS/Source/stream_buffer.c:661-710 | Stores the whole frame if it fits and nothing otherwise. |
| `StreamBuffers.StreamBuffer.ReceiveMessage` | FreeRTOS/Source/stream_buffer.c:918-967 | Delivers the first message whole; one too long for the caller leaves the contents unchanged. |
| `StreamBuffers.LookInv` | FreeRTOS/Source/stream_buffer.c:787-794 | More than a length in the buffer means a complete frame at its front. |
| `StreamBuffers.PutKeeps` | FreeRTOS/Source/stream_buffer.c:1099-1116 | A copy behind the head, before the head moves, leaves the contents alone, wherever the reader has moved the tail to. |
| `StreamBuffers.HeadMoves` | FreeRTOS/Source/stream_buffer.c:1118-1128 | Moving the head takes in exactly what has been copied, wherever the tail is by then. |
| `StreamBuffers.GotMore` | FreeRTOS/Source/stream_buffer.c:1143-1167 | A copy from the tail on takes the next bytes of the contents. |
| `StreamBuffers.TailMoves` | FreeRTOS/Source/stream_buffer.c:1169-1179 | Moving the tail drops exactly the bytes taken. |
| `StreamBuffers.RefuseInv` | FreeRTOS/Source/stream_buffer.c:918-948 | A receiver that has read a length too large for its room leaves the frames as they were, although the tail has moved past the length. |
| `StreamBuffers.PutBackInv` | FreeRTOS/Source/stream_buffer.c:942-949 | Putting the tail back restores the ring to the frames it held. |
| `StreamBuffers.CheckExact` | FreeRTOS/Source/stream_buffer.c:470-710 | A check for room while a refusing receiver has the tail moved on keeps order if and only if it does not find room only because of the four bytes in between. |
| `StreamBuffers.RefusedRace` | FreeRTOS/Source/stream_buffer.c:661-950 | A frame written after such a check lies behind what was there before, once the tail is back, if and only if it would have fitted without the four bytes. |
| `StreamBuffers.RefusedAndRuined` | FreeRTOS/Source/stream_buffer.c:661-950 | In a buffer of 11 bytes that holds a frame of 7 another frame of 7 passes the check, and afterwards 3 bytes are left of the two. |
| `StreamBuffers.MoveInv` | FreeRTOS/Source/stream_buffer.c:661-1206 | Every look, copy and index move of one writer and one reader keeps the ring holding the frames it should. |
| `StreamBuffers.ReceivedIsPrefix` | FreeRTOS/Source/stream_buffer.c:661-1206 | However the looks, copies and index moves of the two interleave on the ring, refused receives included, the messages received are always the first of those sent, byte for byte, those are the messages offered that fitted, none is lost, and what lies between the indices is exactly the frames it should be. |
| `StreamBuffers.ReadsExactly` | FreeRTOS/Source/stream_buffer.c:787-967 | A reader starts to read exactly if a complete message is there, learns exactly its length, refuses exactly if that is more than its room, and is handed exactly the message. |
| `StreamBuffers.StartsExactly` | FreeRTOS/Source/stream_buffer.c:661-710 | A writer starts to write exactly the message it was given, and exactly if its frame fits. |
| `StreamBuffers.NeverStuck` | FreeRTOS/Source/stream_buffer.c:1088-1186 | Neither side is ever stuck in the middle of a message: while bytes are missing it can copy more, every copy brings it closer, and when none is missing its index can move. |
| `EventGroups.Partition` | FreeRTOS/Source/event_groups.c:545-602 | Every waiter is either kept or woken, judged on the same bits: woken exactly if those satisfy its condition. |
| `EventGroups.MetExact` | FreeRTOS/Source/event_groups.c:671-703 | The test for a waiting task holds exactly if every wanted bit is set or, for a task that waits for any, if one of them is. |
| `EventGroups.ClearedExactly` | FreeRTOS/Source/event_groups.c:577-605 | A bit is cleared after a set exactly if a woken task asked for it. |
| `EventGroups.ResultTold` | FreeRTOS/Source/event_groups.c:399-451 | What a woken task is handed satisfies its own condition, whatever is cleared afterwards. |
| `EventGroups.HandedOut` | FreeRTOS/Source/event_groups.c:588-594 | A set hands exactly the woken tasks the bits with the mark, and leaves what others were handed. |
| `EventGroups.ClearUnmet` | FreeRTOS/Source/event_groups.c:461-484 | Clearing bits satisfies nobody. |
| `EventGroups.KeptUnmet` | FreeRTOS/Source/event_groups.c:519-610 | Nobody who is left on the list is satisfied by the bits after the clearing. |
| `EventGroups.SetExact` | FreeRTOS/Source/event_groups.c:519-610 | A bit is set after a set exactly if it was set before or is set now and no task that the set woke asked to have it cleared; exactly the tasks whose condition holds leave the list, each handed those bits. |
| `EventGroups.ClearExact` | FreeRTOS/Source/event_groups.c:461-484 | Clearing takes away exactly the given bits. |
| `EventGroups.WaitExact` | FreeRTOS/Source/event_groups.c:311-397 | A wait whose condition holds clears exactly the wanted bits, if it is to clear; one whose condition does not hold changes no bit and joins the list with what it asked for, unless it may not block. |
| `EventGroups.SyncExact` | FreeRTOS/Source/event_groups.c:191-249 | A rendezvous sets its bits as a set does, then clears exactly the wanted bits if all are there, and otherwise joins the list, unless it may not block. |
| `EventGroups.FinishExact` | FreeRTOS/Source/event_groups.c:399-451 | The end of a wait clears bits exactly if the time had run out, the condition holds after all and clearing was asked for, and then exactly the wanted ones. |
| `EventGroups.ItemRoundTrip` | FreeRTOS/Source/event_groups.c:362-387 | Wanted bits and control bits packed into a list item come back unchanged. |
| `EventGroups.MarkedResult` | FreeRTOS/Source/event_groups.c:588-594 | The mark for a task woken by a set does not disturb the bits it is given. |
| `EventGroups.EventGroup.SetBits` | FreeRTOS/Source/event_groups.c:519-610 | The loop over the list with removals ends in the specified step: exactly the waiters satisfied by old or new bits are woken, each is handed those bits, exactly what they asked for is cleared, and nobody left is satisfied. |
| `EventGroups.EventGroup.ClearBits` | FreeRTOS/Source/event_groups.c:461-484 | Clears the bits, returns the old ones; no waiter becomes satisfied. |
| `EventGroups.EventGroup.WaitBits` | FreeRTOS/Source/event_groups.c:311-397 | Returns at once if the condition holds (clearing if asked), else joins the list unless the wait is zero. |
| `EventGroups.EventGroup.Sync` | FreeRTOS/Source/event_groups.c:191-249 | Sets its bits, handing them to those they wake, then returns the bits with all wanted ones cleared, joins the list, or returns what the set left if it may not wait. |
| `EventGroups.EventGroup.TimeOut` | FreeRTOS/Source/event_groups.c:416-443 | A task whose time is up leaves the list with a value that lacks the mark of a set; bits and the others stay. |
| `EventGroups.EventGroup.FinishWait` | FreeRTOS/Source/event_groups.c:399-451 | A woken task returns the bits it was handed, which satisfy what it asked for; one that timed out returns the present bits, clearing if they now satisfy it. |
| `EventGroups.NextOk` | FreeRTOS/Source/event_groups.c:191-610 | Every call on a group - set, clear, wait, sync, timing out, the end of a wait - keeps that nobody waits for what is already there and that whoever was woken was told bits it asked for. |
| `EventGroups.RunTold` | FreeRTOS/Source/event_groups.c:191-610 | In every state of every run of calls from an empty group the condition of no task on the list holds, bit by bit, and a wait that ends because bits were set returns bits for which the condition of the last blocking call of that task holds. |

## Left out

Parameter store:

- The recovery after a flash operation that fails or reads back differently (core/sysparam.c:357-379): the chip of the model does what it is told; `sdk_flashchip` geometry other than a sector size of 4096 bytes; unlock and cache commands.
- `malloc` failures, the semaphore, debug output, `sysparam_get_info`, `sysparam_get_data_static` and the typed wrappers: they would only add easy members.
- A cut in the middle of one driver write: a write of an entry or region header (4 or 8 bytes) is taken as one step, while payloads are cut at every 12-byte chunk. Addresses are at most 24 bits wide, as on the chip.
- Header reads past the end of a region count as reads of erased flash.
- Sysparam.Store.Init: that the scan reaches the area is a condition (`Bootable`): while the first region has no header, no payload at a sector start inside it may look like the magic number, or the code takes that payload for a header. A region whose end would leave the chip is reported as an I/O error with nothing changed; the code goes on with it, or fails only after it has erased some of its sectors.
- Sysparam.Store.PairUp: makes that check of the region's end, which the code does not make.
- SysparamRun.Run: follows the map up to the first set that misplaces its value; what happens to the store afterwards is not described beyond its invariant.
- SysparamRun.Resume: the run after a cut between the write of a new value and the deletion of the old one is not described beyond the map it starts from (`SysparamFaults.WriteExact` says what its writes do).

Kernel:

- Hardware, interrupt masks, stacks, static allocation, MPU, trace, tickless idle, co-routines; port-optimised task selection (`configUSE_PORT_OPTIMISED_TASK_SELECTION` is 0 by default).
- `vTaskSuspend`, `vTaskResume`, `vTaskDelete`, `vTaskPrioritySet`, `xTaskAbortDelay` and task notifications.
- The order of event lists in `Scheduler` (it is part of `Mutexes` and `QueueWakeups`) and the wrap of the 32-bit overflow counter.
- Scheduler.BlockInv: the task that blocks is not the idle task, as the idle task never blocks.
- Mutexes.RunSafe: no task waits for a mutex while it holds one, priorities are not set by hand, recursive mutexes and the deletion of a holder are left out; a context switch brings up a task that no woken task outranks, so gives and takes inside a stretch in which the caller has suspended the scheduler are left out (`Mutexes.TakeExact` covers the take there).
- QueueWakeups.NoLostWakeup: no suspension or deletion of woken tasks; queue sets are left out. Posts, receives and resets that break it are excluded by their exact conditions.
- QueueWakeups.Queue.TrySend: the retry loop around the critical section is the order of steps in a run, not a loop of the method.
- QueueRing.Ring.Post: blocking and waking are in `QueueWakeups`; here a full or empty queue answers at once.
- Timers.RunExact: auto-reload timers and start commands only; no stop, reset, change of period or one-shot timers; the command queue does not overflow; consecutive samples of the tick count are less than a wrap apart, which is all the code can tell; a command that is not obeyed in time is excluded by the exact condition of `Timers.ObeyExact`.
- StreamBuffers.ReceivedIsPrefix: message buffers; a check for room that a refused receive fools is excluded by the exact condition of `StreamBuffers.CheckExact`; trigger levels, blocking, reset and the interrupt variants are left out. A message length takes four bytes.
- EventGroups.EventGroup.Sync: deletion of a group and the deferred calls from interrupts are left out; a task waits on one group at a time and not again before its last wait has ended.
- Timeouts.TimeOut.Check: the early return for an aborted delay is left out.
