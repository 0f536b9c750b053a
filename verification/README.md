# CHDK in Dafny

CHDK adds a memory allocator, a scheduler, a directory reader, a script system and remote
control to a camera's firmware. This project models the self-contained algorithms of its
`core/` directory and proves what they promise. `dafny verify dfyconfig.toml` checks it.

| part | files | what is proved |
|---|---|---|
| The suba heap and its routing | `HeapTiling`, `HeapSpec`, `HeapMemory`, `Suba`, `MemMgmt` | the free list is a function of the live blocks, over whole runs; exact success condition of an allocation; no write into a live payload; the class works on words in an array and refines the specification; `free` returns a pointer to the heap it came from |
| The bakery mutex | `Bakery` | mutual exclusion, first come first served, bounded overtaking and absence of deadlock, for any number of tasks and any interleaving, with every shared read its own step |
| The action stack | `ActionSpec`, `Shots`, `ActionStack`, `ActionStacks` | a shot run from its stack of frames is the shot told from beginning to end, call by call; it ends in one of five ways, within 21 progress steps and 17 words, and every report is true of the camera; a pass of the scheduler runs every live stack once, also when a script's stack ends itself on the way; five blocks at most |
| The directory reader | `FatSpec`, `FatDir`, `FatNames` | long names survive being written as section 7 of the Microsoft FAT Specification (2005) lays them out, checksum included; which files are listed and by which name, exactly; the cache with rewinds delivers the directory entry by entry |
| The message ring and PTP data | `PtpRing`, `PtpData` | a lock-free queue under every interleaving of single reads and writes; chunked transfers |
| The sliding-window regression and the decimal printer | `LeastSquares`, `Regression`, `FormatDouble` | running sums and cached line equal a fresh least-squares fit of the window, which is the only line with the least squared residual; when a number is printed, and how close the text is to it |
| The USB remote | `UsbRemote`, `UsbTiming`, `UsbDevice` | the key events of every run: each comes at the first sample that calls for it, and none is left out |
| Sensor pixels | `RawPixels`, `RawLayout`, `RawSensor` | packed 10, 12 and 14-bit buffers are arrays of pixels, one after the other in the order of the sensor's bits; repairing bad pixels |
| Configuration files | `ConfFile`, `ConfTable` | what a table reads back from a file that another version's table saved, whole or cut short |
| Script parameter files | `ParamSpec`, `ParamFile`, `ScriptParams` | a saved file is read back for every value of every parameter, or not at all; what other numbers, words and old lines are read as |

Code that changes things step by step is a class with the source's fields and loops, proved
against a specification function; the theorems are lemmas about those functions. The two
protocols between tasks (`lock`/`unlock` and the message ring) are step systems: one step is
one access to shared memory, and a run is any sequence of steps.

Where the code does something its reader might not expect, the model follows the code:

- `suba_free` has a branch that appends to the list behind the tail cell. No live block can
  reach it: the tail cell always ends the chunk (`HeapSpec.LiveBelowTail`).
- In `lock`, `number[i]` is read twice when the maximum is updated, so the running maximum
  can go down. Mutual exclusion holds all the same.
- A file that follows an unfinished long name is not listed at all
  (`FatNames.UnfinishedNameHidesFile`; exactly when, over the entries: `FatNames.ReportedUnlessOpen`).
- `set_raw_pixel` does not cut its value to the sensor's width, and the extra bits go into
  the pixel before. What they do there (`RawPixels.OthersAfter`), which writes are harmless
  (`RawPixels.OthersKeptHere`) and which values are safe in every group
  (`RawPixels.OthersKeptIff`) is stated exactly.
- `config_save` clears what follows the terminator of every variable of 100 bytes, whatever
  its type, so such a variable is restored up to its first zero byte.

`char` is taken as unsigned, as it is on ARM, where `check_fn_char` and the entry bytes
depend on it.

## Model

| member | source | states |
|---|---|---|
| HeapTiling.Canonical | core/suba.c:181-340 | two well-formed heaps over the same chunk with the same live blocks are the same heap: the free list is a function of the live blocks |
| HeapTiling.Conservation | core/suba.c:95-123 | free bytes, a header for every free cell and live bytes add up to the chunk |
| HeapTiling.RequestIs | core/suba.c:188 | the rounded request is the least multiple of 8 that is at least the request and at least mincell |
| HeapSpec.RunInvariant | core/suba.c:146-340 | at every moment of every run of legal calls: cells and live blocks tile the chunk, no two free cells touch, the last cell is free; the accounts balance; `allocated_peak` is the greatest `allocated_size` so far |
| HeapSpec.RunEmpty | core/suba.c:259-340 | whenever nothing is live, whatever the order of the frees, the heap is the single cell it started as |
| HeapSpec.RunsAgree | core/suba.c:181-340 | two moments of any two runs with the same live blocks have the same free list |
| HeapSpec.AllocThenFree | core/suba.c:181-340 | freeing the block just allocated restores the previous heap |
| HeapSpec.AllocSucceedsIff | core/suba.c:188-242 | with req the least multiple of 8 that is at least the request and at least mincell: an allocation succeeds if and only if a free cell other than the tail holds req or the tail exceeds it by POFF + mincell; otherwise nothing changes |
| HeapSpec.AllocTakesFirstFit | core/suba.c:188-256 | the block is cut from the lowest-addressed fit, 8-aligned, and is the whole cell or exactly that req; beyond req it wastes at most POFF + mincell bytes |
| HeapSpec.AllocValid | core/suba.c:181-257 | an allocation keeps the heap well formed and adds exactly its own block to the live ones, at an offset of its own |
| HeapSpec.FreeExact | core/suba.c:259-340 | a free keeps the heap well formed, takes exactly its block out of the live ones and lowers the counters by it |
| HeapSpec.MergeWellFormed | core/suba.c:312-337 | joining with both neighbours, one or none keeps tiling, separation and sizes |
| HeapSpec.LiveBelowTail | core/suba.c:294-303 | the tail cell ends the chunk and every live block lies below it, so the append branch is dead for live blocks |
| HeapMemory.SplitInMemory | core/suba.c:222-235 | the stores that split a cell turn the memory image of a heap into that of the split heap |
| HeapMemory.FreeInMemory | core/suba.c:312-337 | the stores of a free, the one to an absorbed cell included, turn the memory image into that of the merged heap |
| HeapMemory.FreePreserves | core/suba.c:259-340 | none of those stores hits a word of another live block |
| HeapMemory.PayloadIsTheCallers | core/suba.c:125-144 | whatever a caller writes into a live payload, the heap's own links and sizes stay intact |
| HeapMemory.TotalIsFreeSize | core/suba.c:95-123 | the sum along the linked list is the number of free bytes |
| HeapMemory.LargestIs | core/suba.c:95-123 | the largest size along the list is the size of a free cell and a bound of all |
| SubaHeap.Suba.Reset | core/suba.c:146-179 | a fresh chunk becomes the initial heap: one free cell, nothing live; the least cell size is that asked for, rounded up to a multiple of 8 and to no less than 8 |
| SubaHeap.Init | core/suba.c:146-179 | returns null exactly for a chunk without room for a cell, and then leaves it alone |
| SubaHeap.Suba.Search | core/suba.c:206-220 | the loop around the circular list finds the first cell in address order that holds the request, or that there is none |
| SubaHeap.Suba.Take | core/suba.c:188-249 | the list surgery and the counters of an allocation refine the specification and touch no live block |
| SubaHeap.Suba.Alloc | core/suba.c:181-257 | suba_alloc on the word array: it succeeds exactly when a cell holds the least rounded request; the specified heap, the payload's address or 0, a cleared payload on request, all live blocks untouched |
| SubaHeap.Suba.FindInsertion | core/suba.c:305-311 | the loop of suba_free stops at the last cell below the freed block, or at the tail |
| SubaHeap.Suba.Release | core/suba.c:281-340 | counters and coalescing of a free refine the specification and touch no live block |
| SubaHeap.Suba.Free | core/suba.c:259-340 | suba_free: the specified heap for a live payload, no effect and -1 outside the chunk, no effect for null |
| SubaHeap.Suba.MemInfo | core/suba.c:95-123 | the reported numbers are the free bytes, the largest free cell, the number of free cells and the counters |
| MemMgmt.ChdkHeap.ChdkMalloc | core/memmgmt.c:72-77 | fails exactly when the heap is missing or no cell of it holds the request, and otherwise adds one pointer to those the heap owns |
| MemMgmt.ChdkHeap.ChdkFree | core/memmgmt.c:79-87 | takes exactly the pointers in its address range, and gives up ownership of that pointer alone |
| MemMgmt.Memory.Malloc | core/memmgmt.c:274-287 | the result comes from the ARAM heap if that can hold the request, else from the EXMEM heap if that can, else from the firmware's; nobody owned it before, and no other ownership changes |
| MemMgmt.Memory.Free | core/memmgmt.c:289-296 | the pointer goes back to its owner, which alone changes |
| Bakery.MutualExclusion | core/gps.c:174-198 | for any number of tasks and any schedule, never two tasks between lock and unlock |
| Bakery.StepInv | core/gps.c:178-198 | every step of every task keeps the invariant: a waiting task is behind every smaller ticket, and a ticket above a waiting task's cannot be cleared while it waits, although the maximum may go down |
| Bakery.FirstComeFirstServed | core/gps.c:178-192 | a task that has its number before another enters lock is inside first, whatever the schedule |
| Bakery.BoundedOvertaking | core/gps.c:174-198 | from the moment a task has its number until it has been inside and left, in any schedule, every other task is inside at most once, and all of them together at most n - 1 times |
| Bakery.SomeTaskAdvances | core/gps.c:187-191 | whenever a task is in lock and none is inside, some task's next step brings it nearer to the inside |
| Bakery.SomeTaskEnters | core/gps.c:178-192 | no deadlock: steps of the tasks already in lock suffice to bring one inside |
| ActionSpec.ShotBounds | core/action_stack.c:264-430 | a shot makes at most 21 progress steps and uses at most 17 of 48 words, for any ticks, shooting states and flash states |
| Shots.ShotIs | core/action_stack.c:264-430 | for all answers of the camera, the frames pushed in reverse do the shot told from beginning to end: begin, half press, wait for shooting, video or time-out, flash, click, wait for the end, then success, one retry, or failure; every event at the call it belongs to, also when the answers end in the middle |
| Shots.ShotSays | core/action_stack.c:313-403 | 0 is reported only at a call where shooting is over and did not fail, 2 only where it is over and failed, 1 only where there is neither shooting nor video; a second shot begins only where the first is over and failed |
| Shots.ShotLate | core/action_stack.c:367-415 | 1 is reported only after a half press, and five seconds or more after the call that began that shot |
| Shots.ShotLog | core/action_stack.c:313-430 | a finished shot did one of five sequences of key events: one or two half presses, at most two full clicks, and exactly one report of 0, 1 or 2 |
| Shots.ScriptRuns | core/script.c:104-126 | a script stays on its stack to the first call at which it is switched off, and its frame goes, or has ended, and the whole stack goes |
| ActionSpec.StepMeasures | core/action_stack.c:210-430 | a step function that returns 1 lowers the termination measure; one that returns 0 changes no frame and emits nothing; the room needed never grows |
| ActionSpec.RunAllIsCalls | core/action_stack.c:436-463 | a pass over one stack terminates and is a sequence of calls, so the bounds for whole runs hold across passes |
| ActionSpec.RunAllStops | core/action_stack.c:436-463 | a pass goes on until a call returns 0 or no frame is left, and no further |
| ActionStackObject.ActionStack.PopFunc | core/action_stack.c:182-188 | popping a function with its parameters removes exactly its words |
| ActionStackObject.ActionStack.PushClick | core/action_stack.c:264-306 | the frames pushed in reverse spell delay, press, delay, release |
| ActionStackObject.ActionStack.CallSleep | core/action_stack.c:210-254 | the delay step, with its target set on the first call, computes the specified step |
| ActionStackObject.ActionStack.CallWaitShootingDone | core/action_stack.c:313-352 | the end of a shot: wait, report, or push one retry without a further one |
| ActionStackObject.ActionStack.CallWaitShootingInProgress | core/action_stack.c:367-403 | waits for the half press, gives up after the time-out with a report, or pushes the full press |
| ActionStackObject.ActionStack.CallShoot | core/action_stack.c:407-430 | a shot is replaced by its half press and the wait for it |
| ActionScheduler.ActionStacks.CallScriptRun | core/script.c:104-126 | the script's step: wait, leave the stack when scripts are switched off, or, when the script has ended, kill the stack it runs on |
| ActionScheduler.ActionStacks.ScriptEnded | core/script.c:230-272 | a kill from inside a step takes exactly the running stack off the list, with all its frames, and touches no other stack |
| ActionScheduler.ActionStacks.RunTop | core/action_stack.c:436-463 | the word on top of a live stack is always a known function entry, so the error branch is dead; one call computes the specified step, and only a step that returns 1 can have ended its own stack |
| ActionScheduler.ActionStacks.Process | core/action_stack.c:436-463 | step functions run until one returns 0 or the frames are used up, as the specification says; a stack at its end leaves the list and joins the free list once, whether the loop or one of its own steps finished it |
| ActionScheduler.ActionStacks.Create | core/action_stack.c:63-104 | a new stack is the head of the list with its first frame, unless five are running; ids stay distinct if and only if they were and the next id is not in use |
| ActionScheduler.ActionStacks.Finish | core/action_stack.c:107-140 | a finished stack leaves the live list, joins the free list, and a second call does nothing |
| ActionScheduler.ActionStacks.Kill | core/action_stack.c:144-156 | takes out the first stack with the id, or none; every other stack keeps its state |
| ActionScheduler.OwnIdEndsOwn | core/action_stack.c:144-156 | killing a stack's own id ends that stack if and only if no newer stack has the same id |
| ActionScheduler.ActionStacks.IsFinished | core/action_stack.c:46-57 | true exactly when no live stack has the id |
| ActionScheduler.ActionStacks.ProcessAll | core/action_stack.c:466-481 | a pass runs every stack live at its start once, newest first; exactly those whose frames are used up, or that a step of their own has killed, leave the list, and each of them joins the free list once |
| ActionScheduler.SurvivorsStep | core/action_stack.c:107-140 | the list after one more turn is the list edit the turn makes, so the next pointer read before the turn stays right |
| FatNames.LongNameRoundTrip | core/chdk-dir.c:169-290 | every name of 1 to 99 permitted characters, written as long-name entries with the checksum of the short name, is read back when it is not longer than the limit; with another checksum, or longer, the short name is read |
| FatNames.SumIs | core/chdk-dir.c:222-229 | the checksum of a short name starts at 0 and for each byte is rotated right by one bit and increased by that byte, modulo 256 |
| FatNames.PermittedAre | core/chdk-dir.c:133-147 | the characters a name may have: letters, digits and @ . - _ ( ) $ & |
| FatNames.CharsRead | core/chdk-dir.c:131-167 | read backwards, an entry gives the characters of its 13 places in order, without the unused places, or none at all when one of them is not permitted |
| FatNames.ShortNameRead | core/chdk-dir.c:195-219 | a base and an extension, filled up with spaces, are read as the base, a dot and the extension, and without the dot when there is no extension |
| FatNames.EntryTaken | core/chdk-dir.c:149-167 | each written entry extends the collected name by its 13 or fewer characters |
| FatNames.UnfinishedNameHidesFile | core/chdk-dir.c:220-283 | a file right after a long name that stopped early is not reported |
| FatNames.ReportedUnlessOpen | core/chdk-dir.c:220-290 | over the entries alone: nothing is reported for an entry that is erased, part of a long name or a volume label, and a file is left out if and only if a run of long-name entries is open whose last ordinal is above 1 |
| FatNames.ReportedName | core/chdk-dir.c:220-242 | over the entries alone: a listed file has its long name if a complete run is open that carries the checksum of its short name and is not longer than the limit, and its short name otherwise |
| FatNames.OpenRun | core/chdk-dir.c:243-279 | a long name is being collected exactly when such a run ends at the entry before, and what has been collected is the run's characters, checksum and last ordinal |
| FatNames.NamesSplit | core/chdk-dir.c:169-290 | the listing is the reports of all entries before the end, in order |
| FatNames.AllCallsAreNames | core/chdk-dir.c:169-290 | calling until the end lists each reported name once and in order, rewinds included |
| FatDir.Dir.ReadNextEntry | core/chdk-dir.c:57-79 | through the 16 KB cache, the next 32 bytes of the directory, or a short read at its end |
| FatDir.Dir.EndLong | core/chdk-dir.c:220-242 | when the long name is complete: it is reported, or the entry is put back and will give its short name |
| FatDir.Dir.ReadLfnEntry | core/chdk-dir.c:149-167 | the characters of an entry go in front of the name, backwards through the place table, or the name is given up; all writes stay in the buffer |
| FatDir.Dir.ReadShortName | core/chdk-dir.c:195-219 | the 8.3 name of an entry, with a dot only where there is an extension |
| FatDir.Dir.ReadDir | core/chdk-dir.c:169-290 | one call returns the name and the position that the specification gives, terminates, and stays inside the buffers |
| FatSpec.UntilSpaceIs | core/chdk-dir.c:199-215 | the part of a name field before its padding |
| PtpRing.StepInv | core/ptp.c:121-170 | every single read or write of either side keeps: sent is received plus the ring, and a slot is not touched by both |
| PtpRing.QueueSafety | core/ptp.c:121-170 | under every interleaving of one producer and one consumer: what is received is a prefix of what was sent, the rest is in the ring, and that is at most 15 messages |
| PtpRing.FullAndEmptyAreTrue | core/ptp.c:140-170 | "full" is reported exactly when 15 messages are queued, "empty" exactly when none is, at the step that decides |
| PtpRing.ProducerCompletes | core/ptp.c:148-159 | neither side can hold up the other: four steps of the producer alone enqueue |
| PtpRing.ConsumerCompletes | core/ptp.c:161-170 | three steps of the consumer alone dequeue the oldest message |
| PtpRing.MsgQueue.Enqueue | core/ptp.c:148-159 | appends to the queue, unless it is full or there is no message |
| PtpRing.MsgQueue.Dequeue | core/ptp.c:161-170 | takes the oldest message |
| PtpRing.MsgQueue.ReadMsg | core/ptp.c:202-218 | the oldest message whose script id is the running script's or 0; those ahead of it are dropped, those behind it stay |
| PtpData.SendPtpData | core/ptp.c:93-118 | the calls carry the data once and in order, in full chunks but for the last, the size announced in the first alone; it fails exactly at the first call that fails |
| PtpData.RecvPtpData | core/ptp.c:53-72 | the chunks fill the buffer in order and leave the rest of it alone |
| LeastSquares.BestLine | core/gps_math.c:344-358 | when not all x are equal, the computed line has the least squared residual of all lines, and is the only one |
| LeastSquares.DetZeroIff | core/gps_math.c:351-354 | the determinant is never negative, and zero exactly when all x are equal |
| LeastSquares.LineRecovered | core/gps_math.c:344-358 | points on a line give back that line |
| LeastSquares.NoLine | core/gps_math.c:344-358 | when all x are equal, as after the first point, slope and intercept are 0 |
| Regression.Regression.Add | core/gps_math.c:305-338 | the window moves on by one point: ring, running sums and cleared cache agree with the last size points ever added |
| Regression.Regression.RemoveOldest | core/gps_math.c:309-321 | what is subtracted is the oldest point of the window |
| Regression.Regression.Compute | core/gps_math.c:340-358 | the cached result is that of a fresh fit of the window, invalid exactly when all x are equal |
| Regression.Regression.Forecast | core/gps_math.c:374-377 | the value of the fitted line, or 0 when there is none |
| Regression.Regression.Reverse | core/gps_math.c:383-386 | the inverse of the forecast, or 1e9 for a level line or none |
| Regression.Regression.Reset | core/gps_math.c:283-299 | an empty window |
| FormatDouble.FormatDouble | core/gps_math.c:137-266 | the field has w characters, 39 for length 0 or above 39, else the length but at least 3, and f = min(asked for, 18, w - 3) decimals; stars if and only if the value rounded to f decimals needs more digits than min(18, w - f - 1), or w - f - 2 for a negative one; otherwise blanks, sign, digits, the point and f decimals (0 for none), faithful to the value; the text and its terminator fit the 40-byte buffer unless the number is printed without decimals in a field of 39 or more |
| FormatDouble.HalfUnit | core/gps_math.c:182-208 | a printed number is within half a unit of its last place of the value, unless digits had to be shifted out to fit 64 bits |
| FormatDouble.PartsAreClose | core/gps_math.c:186-208 | whole and fraction together are the rounded value, cut by less than a unit of the last digit kept |
| FormatDouble.FitsIff | core/gps_math.c:206-217 | the overflow test on the whole part is a test on the scaled value, however many digits were shifted out |
| FormatDouble.WholeSpells | core/gps_math.c:239-258 | the whole part printed in two pieces spells the number |
| FormatDouble.FractSpells | core/gps_math.c:230-237 | the fraction printed in two pieces spells the number with all its leading zeros |
| UsbRemote.KeyTrace | core/usb_module.c:107-181 | for any samples: after the releases of the reset, whole presses of the kinds the switch has, then the keys still down |
| UsbRemote.OnePressCycle | core/usb_input.c:42-101 | with the one-press switch the key events repeat half down, full down, full up, half up |
| UsbRemote.KeysFollowSwitch | core/usb_module.c:107-181 | whatever the switch asks for, the module brings the two keys there, each of them moved at most once, and does nothing when they are there |
| UsbTiming.KeyTiming | core/usb_input.c:42-184 | for any samples, after the releases of the reset every event comes at the first sample that calls for it, and none is left out: half press once power has lasted longer than the debounce time; then, for one press, full press at the first gap after the debounce time and release after the pulse time; for two presses, after the first gap, full press with power or release without, each after its time, and the end of a full press with the power |
| UsbTiming.OnlyOneLog | core/usb_input.c:42-184 | so the samples alone determine the key events |
| UsbDevice.RemoteControl.OnePressSwitch | core/usb_input.c:42-101 | the driver on the shared variables refines the step |
| UsbDevice.RemoteControl.TwoPressSwitch | core/usb_input.c:109-184 | the driver on the shared variables refines the step |
| UsbDevice.RemoteControl.ShootNormal | core/usb_module.c:103-181 | the module's key calls, in order, and its next state |
| UsbDevice.RemoteControl.HandleUsbRemote | core/usb_remote.c:393-414 | after any calls, variables and key events are those of the run over the samples seen |
| RawPixels.GetPut | core/raw.c:288-364 | the pixel written is read back, cut to the sensor's width, at each depth and position |
| RawLayout.GetIsStream | core/raw.c:327-359 | at each depth pixel k of a group is its k-th field of 10, 12 or 14 bits, in the order of bits in which the two bytes of each 16-bit word change places |
| RawPixels.GetOther | core/raw.c:288-364 | the other pixels of the group are unchanged when no bits spill, and all but the one before whatever the value |
| RawPixels.OthersAfter | core/raw.c:288-324 | whatever the value, a write adds its spilled bits to the low bits of the pixel before and changes no other pixel of the group |
| RawPixels.OthersKeptHere | core/raw.c:288-324 | a write leaves the others of its group alone if and only if the spilled bits are already set in the pixel before |
| RawPixels.OthersKeptIff | core/raw.c:288-324 | a value leaves the other pixels of every group alone if and only if its spilling bits, stated for each position, are zero |
| RawSensor.StoredPixel | core/raw.c:288-364 | the packed buffer is a two-dimensional array: a write changes its own pixel and no other |
| RawSensor.InterpolatedBetween | core/raw.c:367-383 | an interpolated pixel is the mean of its nonzero diagonal neighbours and lies between the least and the greatest; it keeps its value when there is none |
| RawSensor.RepairIs | core/raw.c:367-384 | the whole effect of one repair: within two pixels of the border none; elsewhere the mean of the nonzero diagonal neighbours when that is the setting or a DNG is saved, 0 in raw-converter mode, and none otherwise |
| RawSensor.FirstRepairFirst | core/raw.c:392-398 | the first repair of a list comes first, and the others see what it left |
| RawSensor.ZeroedPixel | core/raw.c:381-382 | in raw-converter mode a bad pixel becomes 0 |
| RawSensor.OnlyListedChange | core/raw.c:386-398 | patching a list changes only listed pixels |
| RawSensor.Sensor.SetRawPixel | core/raw.c:288-324 | the byte writes at each depth and position make the specified buffer |
| RawSensor.Sensor.SumCorners | core/raw.c:371-379 | the loops sum and count the nonzero diagonal neighbours |
| RawSensor.Sensor.PatchBadPixel | core/raw.c:367-384 | the three modes and the border test make the specified buffer |
| RawSensor.Sensor.PatchBadPixels | core/raw.c:392-398 | the list is patched first to last, each pixel from what is there by then |
| ConfFile.RestoreAcrossVersions | core/conf.c:1046-1202 | restoring with one table a file saved by another: an entry with the same id and size gets the saved value, every other one keeps its own |
| ConfFile.SavedValue | core/conf.c:1096-1101 | what is saved is the value, or for 100 bytes the same string with zeros behind it |
| ConfFile.RecordBytes | core/conf.c:1084-1101 | a record is the id and the size, low byte first, and the value |
| ConfFile.FileBytes | core/conf.c:1046-1108 | a file starts with the magic number and the base of the table |
| ConfFile.OtherFile | core/conf.c:1152-1202 | a file with another magic number, or with nothing behind its header, changes nothing |
| ConfFile.TruncatedFile | core/conf.c:1163-1196 | a file cut short restores exactly its whole records |
| ConfFile.SaveRestoreSave | core/conf.c:1046-1202 | saving what was restored from one's own file gives that file again |
| ConfTable.ConfTable.Save | core/conf.c:1046-1108 | the loop fills the buffer it sized with exactly the file |
| ConfTable.ConfTable.CopyValue | core/conf.c:1096-1102 | copies a variable and clears what follows a string's terminator |
| ConfTable.ConfTable.Restore | core/conf.c:1152-1202 | the parsing loop, for any file of at least four bytes, stays in bounds and restores what the specification says |
| ParamFile.LoadSaved | core/gui_script.c:558-663 | loading a saved file gives every named parameter its saved value when all names in it are known, and changes nothing otherwise |
| ParamFile.DecimalRead | core/gui_script.c:227-230 | every number printed in decimal is read back, and the nearest 32-bit number when it is out of range |
| ParamFile.HexRead | core/gui_script.c:227-230 | 0x and hexadecimal digits are read as that number, or the largest 32-bit one |
| ParamFile.OctalRead | core/gui_script.c:227-230 | 0 and octal digits are read as that number, or the largest 32-bit one |
| ParamFile.WordRead | core/gui_script.c:207-227 | the words true and false, after blanks and equals signs, are read as 1 and 0 |
| ParamFile.OldLineRead | core/gui_script.c:609-629 | a line @default name value sets that parameter to that value |
| ParamFile.LongNameCut | core/gui_script.c:98-126 | of a longer name the first 64 characters count, and reading goes on behind all of it |
| ParamFile.LineEndSkipped | core/gui_script.c:89-90 | a line ends with a line feed, a carriage return, or both in this order |
| ParamFile.ScanExactly | core/gui_script.c:585-606 | the first pass accepts a file if and only if every line of it passes |
| ParamFile.UnknownKeepsOut | core/gui_script.c:175-182 | an unknown name on a `#` or `@param` line of any file keeps the whole file out |
| ScriptParams.ScriptParams.FindParam | core/gui_script.c:44-54 | the first parameter of a name, or none |
| ScriptParams.ScriptParams.GetName | core/gui_script.c:112-125 | the name at a position, cut to 64 characters, and the position after it |
| ScriptParams.ScriptParams.GetDefault | core/gui_script.c:207-240 | the value at a position becomes that of the parameter alone |
| ScriptParams.ScriptParams.LoadParamsValues | core/gui_script.c:579-632 | both passes over a file terminate and load what the specification says |
| ScriptParams.ScriptParams.DoSaveParamFile | core/gui_script.c:640-663 | writes one line for each named parameter |

## Left out

- 32-bit wrap-around of request sizes, tick counts, ticket numbers and sums is not modelled; the ids of action stacks do wrap at 2^32.
- SubaHeap.Suba.Reset: requires a chunk with room for a cell and its link, for the reason given for `SubaHeap.Init`.
- SubaHeap.Init: requires that a chunk with room for a cell has room for its link too, since the source would write the link past the end of the chunk.
- SubaHeap.Suba.Alloc: memory is words, so that a cleared payload has zero in every word that lies wholly inside it.
- SubaHeap.Suba.Free: requires null, an address outside the chunk or a live payload; double frees and foreign pointers inside the chunk are not modelled.
- suba: attaching to an existing heap (`rst` = 0) and the error number; a failed check returns -1.
- Memory of the bakery and of the message ring is sequentially consistent; the delay in the wait loops and the code between lock and unlock are not modelled. Lock and unlock are a step system, since their loops wait for other tasks.
- ActionScheduler.ActionStacks.ProcessAll: requires distinct ids, which `Create` keeps until an id is met again after 2^32 - 1 others; with equal ids a stack that kills its own id can end a newer one (`ActionScheduler.OwnIdEndsOwn`).
- The action stack's `active_stack` global is a local of the pass; a failed `malloc` of a block, step functions of other modules and a step that kills another task's stack are not part of the model. `running_script_stack_name` is the id of the stack that runs the script; what a running script pushes onto its stack is left out, and of `script_end` only the kill is modelled, as one event. Ticks, shooting state, flash state and the state of the script are arbitrary inputs; keys and reports are an event log.
- Directory reader: opening and closing, and the `.` and `..` entries' own meaning; a directory is a sequence of bytes and `read` delivers as many of them as are left.
- PtpData.RecvPtpData: requires that the transport has the data, since the source does not look at the result of `recv_data`.
- PTP: the commands themselves, the transport, and freeing of messages.
- Regression.Regression.constructor: requires a buffer of at least one point; with none, `regressionAdd` reads outside it and divides by zero.
- Regression: rounding of `double`.
- FormatDouble: rounding of `double`. With no decimals the source prints `.0` all the same, one character more than the length asked for; the model does so too.
- The trigonometry and `Round` of the GPS mathematics.
- UsbDevice.RemoteControl.HandleUsbRemote: the switch and the camera mode are fixed for a run and remote control is enabled; what a change of them in the middle of a run does is not modelled.
- USB remote: `synch_enable` = 1, the other switches and modules, changes of mode in the middle of a run; the driver and the module are called once per tick, in that order.
- RawSensor.StoredPixel: requires that no bits of the value spill; `RawPixels.OthersKeptIff` says that this is needed.
- Sensor: rows are whole groups of pixels; the conditions under which raw data is available, and reading the bad-pixel file.
- ConfTable.ConfTable.Restore: requires a file of at least four bytes, since the source reads the magic number before it looks at the length.
- ConfFile.RestoreAcrossVersions: requires the ids of a table to be distinct, as they are in the source's tables.
- Configuration: entries of variable length (`CONF_STRUCT_PTR`), the import of version 1.2 files, default values, and the callback that is told which ids were restored. A 100-byte variable without a terminator is saved as it is; the source's `strlen` would read past it.
- Script parameters: parsing of scripts themselves, the file of the current set number; reading `strtol` is the C standard's with base 0 and a 32-bit `long`, and `isalpha` is ASCII.
- Drawing, menus, the console, live view, module loading and camera tables.
