# SUCHAI flight software: a verified model

SUCHAI is satellite flight software built on the command-processor pattern: client tasks put commands
on a queue, a dispatcher hands them one at a time to an executer, and commands read and write a data
repository kept in RAM, flash and FRAM. This project models the parts whose correctness is hardest to
see from the code and proves what they promise, for every input, run or interleaving. Where the code
does not keep its promise, the model follows the code, shows the failing case and proves exactly when
the promise holds.

| area | modules |
|---|---|
| bounded queue under a mutex and two condition variables | `QueueProtocol` (every interleaving of any number of threads), `RingBuffer` (the structure itself) |
| command pipeline: dispatcher, executer, three queues | `CommandPipeline` |
| flight-plan store | `PlanRecord`, `RamPlan` (simple backend), `FlashPlan` and `FlashDriver` (log in flash, TLB in RAM, image in FRAM), `Compaction`, `PlanRefinement`, `PlanLimits` (runs that reach its limits), `PlanCrash` (power lost inside a set), `RebuildCrash` (inside a rebuild) |
| row counter and scheduler | `PlanRepo` (one call at a time), `PlanInterleaving` (overlapping calls), `PurgeInterleaving` (a purge among them), `Scheduler` |
| file transfer | `FileFrames` (sender), `FileReceiver`, `FileTransfer` (whole files), `FileRestart` (START twice), `FileRequests` (asking for parts), `FileParts` (taking them in), `FileMerge` |
| payload samples and telemetry | `PayloadMap` (what any store must give), `RamPayload`, `FlashPayload`, `Telemetry`, `TelemetryTransfer` |
| status variables and the sampling machine | `StatusVoting`, `SensorSampling` |
| covariance prediction of the Kalman filter | `Matrices` (theory over the reals), `MatrixKernels` (loops), `Eskf` |
| shared | `Memory`, `Arithmetic`, `Options` |

Code that works step by step is modelled twice: a method or a class that updates its state as the source
does, proved equal to a specification function, and lemmas over that function. `SCH_SIZE_PER_SECTION`,
`SCH_SECTIONS_PER_PAYLOAD` and `SCH_FP_MAX_ENTRIES` are parameters throughout.

## Where the code and its promises part

- `flight_plan_rebuild_tlb` reads a whole section through a 16-bit length. With the shipped 256 KiB
  sections that length is 0, and a rebuild fills every live row with whatever `malloc` returned
  (`Compaction.ShippedSizesReadNothing`); it preserves the plan exactly when the read covers every live
  container (`Compaction.CompactionPreservesIff`).
- The free-space check uses `>`, so the set after `commands_per_section` of them uses the container past
  section 0: with a table smaller than a section that indexes past the array of section addresses, and
  otherwise the next set's rebuild indexes past its buffer while that row is live. Which sets stay inside
  the arrays is stated exactly (`PlanRefinement.SetSafeIff`), and in every configuration a run reaches one
  that does not (`PlanLimits.OneSectionIsTight`).
- The rebuild erases section 0 only. A set that stores in the container past it while that is still
  programmed rewrites it without an erase (`PlanRefinement.SetCleanIff`), and in every configuration whose
  table can outgrow a section a run from a reset does so, inside the arrays and with the right answers
  (`PlanLimits.ContainerWearsOut`).
- A command name of 248 bytes or more loses its terminator and runs on into the arguments
  (`PlanRecord.LongName`); an entry comes back exactly when its name is shorter or what was cut off it is
  the arguments (`PlanRecord.DecodeEncodeIff`).
- Power lost inside a set leaves a live row whose record was never written, and if the counter was not
  saved yet the next set shares its container (`PlanCrash.CrashInSetEarly`, `PlanCrash.LostCountShares`).
  Inside a rebuild, after the erase, the rows not moved yet read as an erased container or as another row's
  record (`RebuildCrash.CrashInRebuild`).
- Copying the row of time -1 hands out a free row in RAM and fails in flash
  (`PlanRefinement.GetFreeRowDiffers`); `storage_flight_plan_get_args` would read its null strings. Deleting
  time -1 takes one off the row counter (`PlanRepo.DelKeepsCountIff`). The RAM reset clears row 0 only and
  zeroes the counter (`PlanRepo.ResetKeepsCountIff`). The counter is read outside the lock, so overlapping
  calls miscount, exactly when one's counter write falls between another's read and write
  (`PlanInterleaving.CountKeptIffSerial`, `PlanInterleaving.TwoCallsCountIff`). A purge takes no lock: what
  other calls do to rows it has passed is not in its count (`PurgeInterleaving.PurgeMissesSet`), and when the
  counter is right is stated exactly (`PurgeInterleaving.PurgeAndCallCountIff`).
- Two firings in the same second: one is sent, the other never (`Scheduler.AllFireIff`).
- A file whose length is a multiple of 192 gets no END frame and is reported as an error
  (`FileFrames.SendFile`, `FileTransfer.RoundTripIff`); a START repeated after the first DATA frame leaves
  the file unfinished (`FileRestart.DuplicateStartIff`).
- Frame numbers have 16 bits. In a file of more than 192 * 65536 bytes a later frame is taken for the first
  one (`FileTransfer.WrapsAround`); up to that length, and only up to it, the receiver's file is always a
  prefix or the whole of what was sent (`FileTransfer.AlwaysOnTrackIff`). For the same reason parts 0 and 65536
  of a longer file share a name, and one overwrites the other (`FileParts.NamesDifferIff`,
  `FileParts.ConvergesIff`).
- The offset of a requested part is an `int`: a request for a large enough frame number sends bytes that are
  no part of the file (`FileRequests.TruncatedStart`), and which first frames are safe is stated exactly
  (`FileRequests.OnlyPiecesIff`). A part name loses its suffix when its three numbers have more than 12
  digits; the merge then does not find it, though the report does, and gives the file back exactly when no
  name is cut, the file does not end in 0xAA and it has at most 65536 parts (`FileMerge.MergeGivesFileIff`).
- Flash counts the section of a sample twice, so section `s` of a payload lies where section `2 * s` would
  be and the second half of a payload is the first half of the next (`FlashPayload.SectionsAreDoubled`,
  `FlashPayload.SpillAliases`). The alignment check refuses a sample that ends a page, so a payload whose
  sample size divides 512 stops growing on its first page (`FlashPayload.AddingSticks`), and the others
  fill their first section exactly when it is inside the limit (`FlashPayload.FillsSectionIff`). In RAM one section
  too many is accepted and is the next payload's (`RamPayload.SpillAliases`).
- A payload whose type byte wraps, or is that of a flight plan (payload 95), is not parsed as telemetry
  of that payload (`TelemetryTransfer.DispatchIff`).
- A command that submits a command to a full dispatcher queue stops the pipeline for good
  (`CommandPipeline.ProgressIff`), and whatever the queue's length a run does that
  (`CommandPipeline.BlockedIsReached`).
- A sampling step or payload mask of 2^31 or more does not survive a restart (`SensorSampling.LoadSavedIff`).
- `_mat_copy` steps by rows where columns are meant, which is right only for square matrices
  (`MatrixKernels.CopyStepIff`).

## Model

| member | source | states |
|---|---|---|
| QueueProtocol.NoLostWakeup | src/os/linux/pthread_queue.c:77-137 | in every state any interleaving of any number of threads reaches, a receiver asleep while items > 0 (a sender asleep while there is room) has a counterpart that changed the count and has not broadcast yet, past its unlock unless it still holds the mutex |
| QueueProtocol.RingIsFifo | src/os/linux/pthread_queue.c:29-139 | whenever the mutex is free, the received history followed by the ring read from `out` for `items` slots modulo `size` is the sent history, and `in = (out + items) mod size` |
| QueueProtocol.Linearizable | src/os/linux/pthread_queue.c:57-139 | from every reachable state each step leaves the abstract queue alone or, at the unlock, appends the sent value to a queue with room or removes the value returned from the front of a non-empty one |
| QueueProtocol.StuckMeansServed | src/os/linux/pthread_queue.c:77-137 | when no thread can run on its own, the mutex is free, sleeping receivers see an empty queue and sleeping senders a full one |
| RingBuffer.Queue.constructor | src/os/linux/pthread_queue.c:29-54 | a new queue holds nothing and has the length asked for |
| RingBuffer.Queue.Send | src/os/linux/pthread_queue.c:76-97 | succeeds exactly when there is room, and then appends |
| RingBuffer.Queue.Receive | src/os/linux/pthread_queue.c:119-140 | succeeds exactly when the queue is not empty, and then returns and removes the oldest item |
| CommandPipeline.PipelineSafety | src/system/taskDispatcher.c:34-64 | over every run: at most one command is past the dispatcher, commands run in queue order, once each, are freed once, right after running; `failed_cmds` is the number of non-OK results taken in every state (less the one being counted) and never exceeds `executed_cmds` |
| CommandPipeline.ProgressIff | src/system/taskExecuter.c:32-56 | while work is pending the dispatcher or the executer can step, exactly unless the running command is submitting to a full queue; and then no task can ever step |
| CommandPipeline.BlockedIsReached | src/system/taskExecuter.c:32-56 | from the initial state and for every queue length, one command that submits another followed by a queue's length of client commands is a possible run, and after it no task can step |
| CommandPipeline.MeasureDecreases | src/system/taskExecuter.c:32-56 | every dispatcher or executer step, submissions by running commands included, uses up part of a finite amount of work |
| CommandPipeline.DrainedOrBlocked | src/system/mainFS.c:48-50 | without new clients the tasks stop within that bound, and then everything submitted has run and been freed in order, or the executer is blocked on its own submission; with commands that submit nothing always the former |
| PlanRecord.DecodeEncode | src/lib/storage/storage_flash.c:46-54 | an entry with strings under 248 bytes comes back from its 512-byte container unchanged |
| PlanRecord.LongName | src/lib/storage/storage_flash.c:549-566 | a name of 248 bytes or more reads back as its first 248 bytes followed by the arguments |
| PlanRecord.DecodeEncodeIff | src/lib/storage/storage_flash.c:549-626 | an entry comes back from its container, if and only if its name is under 248 bytes or what was cut off the name equals the arguments |
| RamPlan.LiveUpdate | src/lib/storage/storage_ram.c:158-174 | how the number of live rows changes when one row is replaced |
| RamPlan.ResetEmptiesIff | src/lib/storage/storage_ram.c:269-281 | the reset reports success and empties the table exactly when rows 1 onward were free already |
| RamPlan.RamFlightPlan.FindRow | src/lib/storage/storage_ram.c:158-167 | the linear scan returns the first row with the time, or -1 |
| RamPlan.RamFlightPlan.SetRow | src/lib/storage/storage_ram.c:158-192 | the entry goes to the first free row; an error, and no change, for a negative time or a full table |
| RamPlan.RamFlightPlan.GetRow | src/lib/storage/storage_ram.c:194-210 | a copy of the first row with that time, free or not, or an error |
| RamPlan.RamFlightPlan.GetArgs | src/lib/storage/storage_ram.c:221-239 | the first row with that time, never a free one, or an error |
| RamPlan.RamFlightPlan.DeleteRow | src/lib/storage/storage_ram.c:241-256 | the first row with that time becomes free, or an error |
| RamPlan.RamFlightPlan.DeleteRowIdx | src/lib/storage/storage_ram.c:258-267 | the row becomes free; out-of-range and negative indexes are errors |
| RamPlan.RamFlightPlan.ResetTable | src/lib/storage/storage_ram.c:269-281 | row 0 becomes free and success is returned, the other rows stay |
| FlashPlan.AddressableIff | src/lib/storage/storage_flash.c:537-547 | the container right after section 0 has a section address exactly when the table can outgrow a section |
| FlashPlan.TlbRoundTrip | src/lib/storage/storage_flash.c:344-367 | a TLB entry comes back from its FRAM bytes |
| FlashPlan.EncodeAllAt | src/lib/storage/storage_flash.c:358-367 | where each entry is in the image of the whole TLB |
| FlashPlan.RebuildableStep | src/lib/storage/storage_flash.c:436-454 | each round of the rebuild finds a container for the entry it moves and leaves the rest movable |
| FlashPlan.MakeRoomUsed | src/lib/storage/storage_flash.c:530-541 | after the space check the next container is in section 0 or just past it; a rebuild leaves the used counter at the number of live rows and changes no time |
| Compaction.RebuildPacks | src/lib/storage/storage_flash.c:415-459 | the rebuild puts live record number `k` in container `k`, in TLB order, on erased containers, with the used counter at the live count |
| Compaction.CompactionPreserves | src/lib/storage/storage_flash.c:415-459 | if live addresses are in section 0, the read covers them and they fit, every TLB index reads the same record, packed into slots 0 .. live-1 |
| Compaction.CompactionPreservesIff | src/lib/storage/storage_flash.c:425-459 | for every content of the malloc'ed buffer the plan is preserved, if and only if the bulk read covers every live container |
| Compaction.ShippedSizesReadNothing | src/lib/storage/storage_flash.c:89-100 | with 512 commands per section the 16-bit read length is 0, so only an empty plan is covered |
| PlanRefinement.RebootRestores | src/lib/storage/storage_flash.c:235-268 | with the image up to date, close, init and load restore the same store |
| PlanRefinement.StatusMirror | src/lib/storage/storage_flash.c:308-313 | a status cell below the image does not touch it |
| PlanRefinement.StatusKeepsImageIff | src/lib/storage/storage_flash.c:301-313 | status writes keep the image of the TLB for every value, if and only if the cell lies below it |
| PlanRefinement.SetRep | src/lib/storage/storage_flash.c:530-590 | a set whose rebuild, if it needs one, reads every live container has the same status as the RAM table's and keeps the two related, using exactly one container if it succeeds and none if it is refused |
| PlanRefinement.GetFreeRowDiffers | src/lib/storage/storage_ram.c:194-210 | copying the row of time -1 has the same status on both backends exactly when no row is free |
| PlanRefinement.StepRep | src/lib/storage/storage_flash.c:514-676 | every operation gives the same answer on both backends and keeps them related, also where a container is rewritten |
| PlanRefinement.FlashRefinesRam | src/lib/storage/storage_flash.c:466-699 | from a reset, any sequence of sets, gets, deletions, status writes and reboots that stays inside the driver's arrays and whose rebuilds read every live container gets the RAM table's answers; live addresses are distinct, a reboot would change nothing, and no container was programmed twice between erases if and only if no set stored in the container past section 0 while it was programmed |
| PlanRefinement.RefinesUpToOneSection | src/lib/storage/storage_flash.c:530-676 | any well-formed sequence with at most commands_per_section successful sets, and any number of refused ones, stays in range, so the answers agree; and it programs no container twice between erases |
| PlanRefinement.SetCleanIff | src/lib/storage/storage_flash.c:536-568 | a set keeps every container programmed at most once since its erase, if and only if it does not store in the container past section 0 while that is programmed |
| PlanRefinement.RunCleanIff | src/lib/storage/storage_flash.c:425-568 | the same over every run |
| PlanRefinement.RebuildSafeIff | src/lib/storage/storage_flash.c:436-454 | in every related state a rebuild stays inside its buffer, if and only if no live row is in the container past section 0 |
| PlanRefinement.SetSafeIff | src/lib/storage/storage_flash.c:530-590 | in every related state, exactly which sets stay inside the driver's arrays: refused for the time; room in section 0; at its end a full table or one that can outgrow a section; past its end no live row there |
| PlanLimits.OneSectionIsTight | src/lib/storage/storage_flash.c:536-547 | in every configuration, a run of commands_per_section sets and deletions from a reset, with one set more if the table can outgrow a section, stays in range and leaves a store whose next set does not |
| PlanLimits.ContainerWearsOut | src/lib/storage/storage_flash.c:427-457 | where the table can outgrow a section, a run from a reset stays in range, gets the RAM table's answers and programs the container past section 0 twice without an erase |
| PlanCrash.CrashInSetEarly | src/lib/storage/storage_flash.c:393-406 | power lost after the TLB entry was saved and before the counter: every other live row survives with its record, and the new row is live and reads as what its container held |
| PlanCrash.CrashInSetLate | src/lib/storage/storage_flash.c:560-568 | power lost after both were saved and before the container was written: the same, with the container counted |
| PlanCrash.BlankRecord | src/lib/storage/storage_flash.c:602-626 | an erased container reads as a record of time 0 with no command |
| PlanCrash.LostCountShares | src/lib/storage/storage_flash.c:393-406 | after the earlier loss the counter is the old one, and the next set that stores succeeds, puts its entry in the first free row and in the same container: both rows then read as the new record |
| RebuildCrash.RebuildIsRounds | src/lib/storage/storage_flash.c:415-459 | the states cut short are those a rebuild goes through |
| RebuildCrash.CrashInRebuild | src/lib/storage/storage_flash.c:425-457 | power lost when any number of rounds of a rebuild are done: every row keeps its time; a moved row reads as its record, another as the record of the row moved to its old container or as an erased one; the used counter is the number of records moved, or the old one if there is none |
| RebuildCrash.PlanSurvivesIff | src/lib/storage/storage_flash.c:425-457 | a plan of different, non-blank records survives that, if and only if every live row was moved before |
| FlashDriver.Driver.constructor | src/lib/storage/storage_flash.c:235-268 | the TLB is what the FRAM image says |
| FlashDriver.Driver.FindIndexTlb | src/lib/storage/storage_flash.c:466-476 | the first TLB index with the time, or -1 |
| FlashDriver.Driver.DumpTlb | src/lib/storage/storage_flash.c:358-367 | one entry, or all, go to their place in the FRAM and nothing else changes |
| FlashDriver.Driver.UpdateEntry | src/lib/storage/storage_flash.c:393-406 | the entry and the used counter change together, in RAM and in the image |
| FlashDriver.Driver.RebuildTlb | src/lib/storage/storage_flash.c:415-459 | the loop computes the compaction the lemmas are about |
| FlashDriver.Driver.SetRow | src/lib/storage/storage_flash.c:530-590 | the whole new state of a set: rebuild if needed, first free row, next container |
| FlashDriver.Driver.GetArgs | src/lib/storage/storage_flash.c:602-651 | the record found through the TLB, or an error |
| FlashDriver.Driver.DeleteRow | src/lib/storage/storage_flash.c:653-666 | only the TLB entry and its image change |
| FlashDriver.Driver.DeleteRowIdx | src/lib/storage/storage_flash.c:514-676 | likewise by index, with its error cases |
| FlashDriver.Driver.SetStatusCell | src/lib/storage/storage_flash.c:308-313 | four bytes of the FRAM change, at a 16-bit address |
| FlashDriver.Driver.ResetPlan | src/lib/storage/storage_flash.c:678-699 | all plan sections erased, TLB blank, used counter zero, image up to date |
| PlanRepo.SetKeepsCount | src/system/repoData.c:218-232 | a set keeps `dat_fpl_queue` the number of live rows |
| PlanRepo.GetKeepsCount | src/system/repoData.c:234-252 | so does fetching a row |
| PlanRepo.DelKeepsCountIff | src/system/repoData.c:254-266 | so does a deletion, exactly when the time is not -1 or no row is free |
| PlanRepo.ResetKeepsCountIff | src/system/repoData.c:268-279 | so does the reset on RAM, exactly when rows 1 onward were free |
| PlanRepo.PurgeCounts | src/system/repoData.c:281-297 | the rows a purge counts are the rows it leaves |
| PlanRepo.CountConservedIff | src/system/repoData.c:218-297 | over any run of sets, gets, deletions and purges executed one at a time the counter is the number of live rows in every state, if and only if no call deletes time -1 while a row is free |
| PlanInterleaving.CountIsOffByLost | src/system/repoData.c:218-266 | over every interleaving of any number of calls of any kind, the counter is off by exactly what was written over, which is nothing if no counter write falls between another call's read and write |
| PlanInterleaving.CountKeptIffSerial | src/system/repoData.c:218-266 | over every interleaving of any number of sets, or of any number of gets and deletions, the counter ends right if and only if no counter write falls between another successful call's read and write |
| PlanInterleaving.TwoCallsCountIff | src/system/repoData.c:218-266 | the same for any two calls, a set and a deletion among them |
| PlanInterleaving.InterleavedSetsMiscount | src/system/repoData.c:218-232 | a schedule of two sets that stores two rows and counts one |
| PurgeInterleaving.PurgedCountIsOff | src/system/repoData.c:218-297 | over every interleaving of a purge with any number of sets, gets and deletions, the counter is off by what was written over, the purge's write included, less the live rows the purge deleted |
| PurgeInterleaving.PurgeLastCountIff | src/system/repoData.c:281-297 | if the purge writes last, the counter is off by what the calls changed behind its scan, so it is right if and only if that is nothing on balance |
| PurgeInterleaving.PurgeAndCallCountIff | src/system/repoData.c:218-297 | for a purge and one call: if the purge's counter write fell between the call's read and write, the counter is right if and only if the purge deleted no live row; otherwise if and only if the call changed no row the purge had passed |
| PurgeInterleaving.PurgeMissesSet | src/system/repoData.c:281-297 | a schedule of a purge and a set that ends with one row and a counter of 0 |
| PlanRepo.PlanRepository.Set | src/system/repoData.c:218-232 | table and counter after the call |
| PlanRepo.PlanRepository.Get | src/system/repoData.c:234-252 | record, table and counter after the call |
| PlanRepo.PlanRepository.Delete | src/system/repoData.c:254-266 | table and counter after the call |
| PlanRepo.PlanRepository.Purge | src/system/repoData.c:281-297 | exactly the rows due after now + 1 are kept, unchanged, and the counter is how many they are, on either backend |
| Scheduler.ExpandIs | src/system/taskFlightPlan.c:38-63 | a row (t, n, p > 0) asks for firings at t, t+p, ..., t+(max(1,n)-1)p |
| Scheduler.TickConserves | src/system/taskFlightPlan.c:38-63 | one second moves one firing from the table to what was sent and loses none |
| Scheduler.ScheduleConserved | src/system/taskFlightPlan.c:38-63 | over consecutive seconds, firings sent plus the expansion of the table equal the initial expansion, firing by firing |
| Scheduler.SentInOrder | src/system/taskFlightPlan.c:38-63 | commands go out in order of time, at most one a second, inside the seconds observed |
| Scheduler.AllFireIff | src/system/taskFlightPlan.c:38-63 | once every firing's second has been observed, exactly the firings asked for were sent, if and only if no two share a second |
| Scheduler.SingleRowFires | src/system/taskFlightPlan.c:38-63 | a row alone in the table fires at exactly its times and never again |
| Scheduler.RunTick | src/system/taskFlightPlan.c:38-63 | the loop body computes that second, on the repository object |
| FileFrames.FramesAt | src/system/cmdCOM.c:389-439 | frame `k` carries the k-th 192-byte slice, padded with 0xAA, and the number `first + k` cut to 16 bits |
| FileFrames.SendFileParts | src/system/cmdCOM.c:371-450 | the frames sent are a prefix of those, as many as the link takes; success exactly if all went and there was one |
| FileFrames.SendFile | src/system/cmdCOM.c:333-369 | START, full slices and tail in order; success exactly if the length is not a multiple of 192 and the link took all |
| FileFrames.StripLength | src/system/cmdTM.c:682-691 | the backwards scan finds the end of the data before the trailing 0xAA run |
| FileFrames.StripPad | src/system/cmdTM.c:682-691 | stripping undoes padding except for 0xAA bytes the data itself ended with |
| FileReceiver.FileParser.ParseFile | src/system/cmdTM.c:614-721 | the receiver's new state and result for every frame |
| FileTransfer.SafeOnUnreliableLink | src/system/cmdTM.c:634-718 | for a file of at most 192 * 65536 bytes and any loss, repetition, reordering and foreign DATA or END frames the open file holds exactly slices 1 .. last_frame; after END it holds the whole file and never changes |
| FileTransfer.ParseSentEnd | src/system/cmdTM.c:673-718 | END is accepted, and closes the file, exactly when its number cut to 16 bits follows the last one; up to 192 * 65536 bytes only in sequence |
| FileTransfer.EmittedIsSent | src/system/cmdCOM.c:333-450 | every frame the sender emits after START is one the safety theorem covers |
| FileTransfer.FileSafety | src/system/cmdTM.c:614-721 | the same for the sender's own frames after START, whatever the receiver was doing before; no other file changes |
| FileTransfer.WrapsAround | src/system/cmdCOM.c:407-413 | in a longer file whose byte 192 * 65536 differs from its first, START and one later frame leave a file that is not what was sent |
| FileTransfer.AlwaysOnTrackIff | src/system/cmdTM.c:673-680 | for every length: all files of that length are safe over all arrivals, if and only if it is at most 192 * 65536 |
| FileTransfer.DeliverInOrder | src/system/cmdTM.c:614-721 | in order and without loss, the file is the data with only the tail's 0xAA run removed, and closed, unless there is no tail or the numbers run past 16 bits |
| FileTransfer.RoundTripIff | src/system/cmdCOM.c:333-450 | the file is reproduced and the receiver idle, if and only if its length is not a multiple of 192, its last byte is not 0xAA and its frames can be numbered in 16 bits |
| FileRestart.DuplicateStartIff | src/system/cmdTM.c:634-661 | with START repeated after `j` DATA frames of an in-order transfer, the file is reproduced and the receiver idle, if and only if `j` is 0 and the file would have been reproduced without it |
| FileRequests.StartByteIs | src/system/cmdTM.c:748 | the 32-bit offset is that of frame `first` modulo 2^26, or negative, or inside a frame |
| FileRequests.ReadBytesIs | src/system/cmdTM.c:747-758 | what the mixed signed and unsigned range arithmetic amounts to where the offset is right, error cases included |
| FileRequests.SelectBytes | src/system/cmdTM.c:747-758 | the byte count or the error, for every pair of frame numbers |
| FileRequests.SendParts | src/system/cmdTM.c:747-774 | a request sends the frames of its buffer, right offset or wrong, as many as the link takes |
| FileRequests.RequestSendsPieces | src/system/cmdTM.c:747-770 | where the offset is right, part `k` is the same frame of the same slice whatever range it is asked for in |
| FileRequests.OnlyPiecesIff | src/system/cmdTM.c:747-770 | every request starting at a frame sends only parts of its file, for every file and range, if and only if that frame number modulo 2^26 is at most 11184810 |
| FileRequests.TruncatedStart | src/system/cmdTM.c:748-757 | frames 22369622 to 22369623 of a 320-byte file: bytes 128 to 319 go out as part 21846 |
| FileRequests.RequestedIff | src/system/cmdTM.c:723-775 | the frames requests with a right offset can produce are exactly the parts of the file |
| FileParts.NamesDiffer | src/system/cmdTM.c:663-667 | names with different part numbers differ, cut or not |
| FileParts.NamesDifferIff | src/system/cmdTM.c:663-667 | all parts of a file have different names, if and only if it has at most 192 * 65536 bytes |
| FileParts.SuffixKeptIff | src/system/cmdTM.c:663-667 | the name keeps ".part" if and only if its three numbers have at most 12 digits together |
| FileParts.ParsePiece | src/system/cmdTM.c:663-708 | for a file of any length, a PART frame replaces the file of its 16-bit number by its bytes and leaves the receiver idle |
| FileParts.ResendConverges | src/system/cmdTM.c:663-708 | for a file of at most 192 * 65536 bytes, any requests and any loss, repetition or order, a part that is present holds its slice |
| FileParts.ResendKeeps | src/system/cmdTM.c:663-708 | for a file of any length, each file present holds the bytes of a part that goes to it, and the files present are the earlier ones and those of the frames that arrived |
| FileParts.PartOverwrites | src/system/cmdTM.c:663-708 | in a longer file part 65536 is found where part 0 should be |
| FileParts.ConvergesIff | src/system/cmdTM.c:663-708 | for every length: in all files of that length a part that is present holds its slice over all arrivals, if and only if it is at most 192 * 65536 |
| FileParts.PresentIff | src/system/cmdTM.c:663-708 | the file of part `k` is present exactly when it was before or a frame for it arrived |
| FileParts.OwnFileIff | src/system/cmdTM.c:663-667 | up to 192 * 65536 bytes that is the frame of part `k` only |
| FileMerge.AllVisibleIff | src/system/cmdTM.c:817-820 | the merge sees every part of a file, if and only if the id, the largest part number and the last part's number have at most 12 digits together |
| FileMerge.SelectedIff | src/system/cmdTM.c:817-820 | in a directory with nothing else under the id, the shell command joins exactly the part files present whose name was not cut |
| FileMerge.MergeGivesFileIff | src/system/cmdTM.c:817-820 | once all parts have arrived the merge gives the file back, if and only if it has at most 192 * 65536 bytes, does not end in 0xAA and no name is cut |
| FileMerge.ScanPart | src/system/cmdTM.c:777-785 | the three numbers are read back from a part's name, cut or not |
| FileMerge.FindsIff | src/system/cmdTM.c:796-808 | the report finds exactly the part files present, for files of any length |
| FileMerge.ReportMissing | src/system/cmdTM.c:796-815 | the merge loops terminate and report exactly the numbers in 0 .. max that were not found, in order, and nothing if none was |
| FileMerge.ReportAbsent | src/system/cmdTM.c:796-815 | unless no part is there at all, exactly the absent part files up to the last number are reported, which up to 192 * 65536 bytes are the absent parts |
| PayloadMap.ReadsLastWritten | src/lib/storage/storage_ram.c:306-334 | with samples apart, after any run of writes every sample is the one last written for its key |
| PayloadMap.FaithfulIff | src/lib/storage/storage_ram.c:306-334 | a placement of samples behaves as a map over all runs, if and only if no two samples overlap |
| PayloadMap.LogAppend | src/system/repoData.c:363-393 | a write just past the end of a payload's samples appends to them |
| RamPayload.AddressCases | src/lib/storage/storage_ram.c:288-304 | for every index: its place below the capacity, the next payload's first section for one section more, refused beyond |
| RamPayload.RamIsMap | src/lib/storage/storage_ram.c:288-334 | below sections_per_payload * samples_per_section the RAM store is a map from (payload, index) to sample |
| RamPayload.OwnAreaIff | src/lib/storage/storage_ram.c:293-301 | an accepted write stays in its payload's area if and only if its index is below the capacity |
| RamPayload.SpillAliases | src/lib/storage/storage_ram.c:294-299 | the first index past the capacity is the first sample of the next payload |
| RamPayload.OperationsAreMap | src/lib/storage/storage_ram.c:306-334 | set and get are those of the map for every index that does not spill |
| RamPayload.AddAppends | src/system/repoData.c:363-393 | while there is room, adding a sample appends it to its payload's log and changes no other log |
| RamPayload.RamPayloads.Set | src/lib/storage/storage_ram.c:306-319 | the buffer after the call, byte for byte, and the result |
| RamPayload.RamPayloads.Get | src/lib/storage/storage_ram.c:321-334 | the bytes at the sample's place, or an error |
| RamPayload.RamPayloads.GetRecent | src/system/repoData.c:406-425 | the sample that many before the newest, or an error |
| RamPayload.RamPayloads.AddSample | src/system/repoData.c:363-393 | buffer and index after the call |
| FlashPayload.NoPageCrossed | src/lib/storage/storage_flash.c:706-711 | an accepted sample never crosses a 512-byte page |
| FlashPayload.AlignedIff | src/lib/storage/storage_flash.c:706-711 | the check refuses exactly the last slot of a page whose size the samples divide |
| FlashPayload.SectionsAreDoubled | src/lib/storage/storage_flash.c:753-766 | the page a sample is on: section `s` counts twice |
| FlashPayload.FlashIsMap | src/lib/storage/storage_flash.c:706-803 | on the accepted samples whose real section is the payload's own, the store is a map over all runs |
| FlashPayload.FirstSectionAccepts | src/lib/storage/storage_flash.c:706-771 | a sample of the first section is accepted, if and only if its address is within the limit and it does not end its page; and then the map holds it |
| FlashPayload.SectionAcceptedIff | src/lib/storage/storage_flash.c:706-771 | the whole first section is accepted, if and only if the sample size does not divide 512 and the section's last sample is within the limit |
| FlashPayload.OwnAreaIff | src/lib/storage/storage_flash.c:753-766 | a sample is in its payload's area if and only if twice its section number is below the sections per payload |
| FlashPayload.SpillAliases | src/lib/storage/storage_flash.c:753-766 | with an even number of sections, the first sample of the second half has the address of the next payload's first sample, and is accepted exactly when that is within the limit and the sample is shorter than a page |
| FlashPayload.OperationsAreMap | src/lib/storage/storage_flash.c:773-803 | set and get are those of the map there |
| FlashPayload.FirstPageAccepts | src/lib/storage/storage_flash.c:706-711 | which samples of the first page are accepted |
| FlashPayload.AddingSticks | src/system/repoData.c:363-393 | when the sample size divides 512, n additions leave the index at min(n, samples per page - 1) |
| FlashPayload.FillsSectionIff | src/system/repoData.c:363-393 | adding samples fills the whole first section, if and only if the sample size does not divide 512 and the section is within the limit |
| FlashPayload.AddAppends | src/system/repoData.c:363-393 | adding a sample the store holds appends it to its payload's log and changes no other log |
| FlashPayload.FlashPayloads.WriteChecked | src/lib/storage/storage_flash.c:716-727 | writes exactly when aligned, and only those bytes |
| FlashPayload.FlashPayloads.Set | src/lib/storage/storage_flash.c:773-787 | the flash after the call and the result |
| FlashPayload.FlashPayloads.Get | src/lib/storage/storage_flash.c:789-803 | the bytes at the sample's place, or an error |
| FlashPayload.FlashPayloads.AddSample | src/system/repoData.c:363-393 | flash and index after the call |
| Telemetry.SwapWordsTwice | src/system/cmdCOM.c:453-465 | the two byte-order conversions of a buffer undo each other |
| Telemetry.SwapBuffer | src/system/cmdCOM.c:453-465 | every word of the buffer is reversed in place |
| Telemetry.FramesCarry | src/system/cmdTM.c:141-217 | the frames of a range carry exactly its samples, in order, and announce as many |
| TelemetryTransfer.FramesAt | src/system/cmdTM.c:168-197 | frame `i` carries the samples from `i * structs_per_frame` on, zero-filled and byte-swapped |
| TelemetryTransfer.SendFromTo | src/system/cmdTM.c:141-228 | sends the first frames of the stored samples start .. end-1, exactly as many as the link takes; success exactly if there was one and the link took all |
| TelemetryTransfer.DispatchIff | src/system/taskCommunications.c:232-255 | the type byte leads back to the payload if and only if it fits a byte and is not that of a flight plan |
| TelemetryTransfer.ReceiveTelemetry | src/system/cmdTM.c:404-428 | the receiver's store after a frame, also where samples spill past the payload's capacity or are refused |
| TelemetryTransfer.ReceiveFrames | src/system/cmdTM.c:404-428 | frames received in order append their samples to the payload and change no other |
| TelemetryTransfer.RoundTrip | src/system/cmdTM.c:141-428 | a range of stored samples, framed, sent, received and parsed, is appended unchanged at the receiver; the ndata fields sum to end - start |
| StatusVoting.ToleratesIff | src/system/repoData.c:188-198 | the vote recovers the value whatever the altered copies hold, if and only if at most one copy was altered |
| StatusVoting.MasksSingleFaults | src/system/repoData.c:135-199 | over every run of writes and alterations, if at most one copy was altered since the last write, that write is read |
| StatusVoting.WriteKeepsOthers | src/system/repoData.c:135-153 | writing one variable never changes what another reads as |
| StatusVoting.MasksIff | src/system/repoData.c:144-180 | for read strides up to the write stride, faults are masked if and only if dat_status_last_var equals dat_status_last_address |
| StatusVoting.StatusRepo.SetStatusVar | src/system/repoData.c:135-153 | the three cells change and no others |
| StatusVoting.StatusRepo.GetStatusVar | src/system/repoData.c:170-199 | the vote of the three cells at the read stride |
| SensorSampling.LoadSavedIff | apps/suchai/src/taskSensors.c:37-47 | a restart reads back the machine saved, if and only if step and payload mask are below 2^31 |
| SensorSampling.RestartRestores | apps/suchai/src/taskSensors.c:37-47 | with at most one altered copy of each saved field, a restart finds the machine as it was |
| SensorSampling.TickCountsDown | apps/suchai/src/taskSensors.c:64-128 | every second brings the pause one second nearer |
| SensorSampling.ExactlyNRounds | apps/suchai/src/taskSensors.c:64-128 | after a tick applied START for n rounds, over any seconds, restarts and single upsets: rounds taken plus rounds left is n, one command per active sensor and round, and after n * step + 1 seconds in all the machine is paused with exactly n taken |
| SensorSampling.PausesExactly | apps/suchai/src/taskSensors.c:64-128 | without restarts the machine samples until exactly the second it is due to pause |
| SensorSampling.UnappliedIsLost | src/system/repoData.c:562-574 | a machine command not yet applied by a tick does not survive a restart |
| SensorSampling.SensorTask.SetMachine | src/system/repoData.c:562-574 | which commands are accepted and what they change |
| SensorSampling.SensorTask.OneSecond | apps/suchai/src/taskSensors.c:64-128 | the machine, what is saved and the commands sent after one pass of the loop |
| Matrices.SumSwap | src/lib/utils/math_utils.c:310-324 | a finite double sum may be taken in either order |
| Matrices.QuadCongruence | src/lib/utils/math_utils.c:423-429 | the quadratic form of F P F^T at x is that of P at F^T x, in any dimension |
| Matrices.PredictionKeepsCovariance | src/lib/utils/math_utils.c:423-429 | F P F^T + Q is symmetric positive semidefinite whenever P and Q are, for any F and any dimensions |
| Matrices.DiagonalCovarianceIff | src/lib/utils/math_utils.c:403-421 | a diagonal matrix is a covariance if and only if no entry is negative |
| MatrixKernels.MatMatMult | src/lib/utils/math_utils.c:310-324 | the loops compute the matrix product of flat arrays |
| MatrixKernels.MatMatSum | src/lib/utils/math_utils.c:326-331 | the loop computes the sum |
| MatrixKernels.MatTranspose | src/lib/utils/math_utils.c:333-343 | the loops compute the transpose |
| MatrixKernels.MatCopy | src/lib/utils/math_utils.c:345-355 | for any shape, row `i` of the block is read at `matx * i`, goes to `resx * (i + p_i) + p_j`, and nothing else changes |
| MatrixKernels.CopiedShows | src/lib/utils/math_utils.c:345-355 | for a square block and a square matrix that puts the block at its place and leaves the rest |
| MatrixKernels.CopyStepIff | src/lib/utils/math_utils.c:345-355 | the index the copy uses is right for every entry, if and only if the matrix is square or has no second row |
| MatrixKernels.MatSetDiag | src/lib/utils/math_utils.c:357-369 | a multiple of the identity |
| Eskf.NoiseCovarianceIff | src/lib/utils/math_utils.c:403-421 | Q is a covariance if and only if dt >= 0 |
| Eskf.PredictionStep | src/lib/utils/math_utils.c:380-430 | one prediction keeps the covariance symmetric positive semidefinite, whatever the rotation |
| Eskf.AlwaysCovariance | src/lib/utils/math_utils.c:380-430 | over every run of predictions from the identity |
| Eskf.BuildTransition | src/lib/utils/math_utils.c:382-400 | the four block copies make F |
| Eskf.BuildNoise | src/lib/utils/math_utils.c:403-421 | the block copies make Q, whatever Q held before |
| Eskf.ComputeError | src/lib/utils/math_utils.c:380-430 | the kernels leave F P F^T + Q in P, and it is a covariance if P was one and dt >= 0 |

## Left out

- RingBuffer.Queue.Send and RingBuffer.Queue.Receive show a call that waits as its outcome; the waiting itself is in `QueueProtocol`, where a deadline is an event that may come at any time. The computation of the deadline is not modelled.
- CommandPipeline treats the three queues as bounded FIFOs with unlimited waiting; the finite expiry of portMAX_DELAY on Linux is not modelled. Commands write neither counter.
- PlanRefinement covers runs that stay inside the driver's arrays and whose rebuilds read every live container; what the code does past the arrays is undefined and only shown to be reached, and exactly when. Strings of 248 bytes or more are in PlanRecord only.
- RebuildCrash cuts a rebuild between its rounds, where its bulk read covered every live container; power lost between the steps of one round is not modelled.
- PlanInterleaving and PurgeInterleaving leave out calls that look for time -1 and two purges at once; looking at a row and deleting it are one step each.
- FlashPlan uses the debug build's memories, where an erase writes zeros and every access succeeds; the closed-store, allocation and device-error returns are left out here and in the other storage modules.
- FileRequests.SendParts: does not model frame numbers whose difference overflows an int, which is undefined, nor files of 2^63 bytes or more.
- FileTransfer covers names under 192 bytes. One START may be repeated in an in-order transfer; over an unreliable link there is one START per file id.
- FileMerge.MergeGivesFileIff: models the shell's `find`, `sort -V` and `cat` as joining by number the parts whose names match.
- RamPayload and FlashPayload take a non-negative index, and leave undefined the read past the table of section addresses that the last payload's first index past its capacity causes.
- TelemetryTransfer.SendFromTo: allocation of packets and the pauses between them are left out; csp_send is a link that takes some number of frames.
- TelemetryTransfer.ReceiveTelemetry: takes frames whose announced samples are inside the frame, which the source asserts.
- SensorSampling and Scheduler do not model 32-bit overflow of the seconds counters.
- eskf_update_mag, which passes a 3 by 6 matrix to the copy and never writes its result back, is not modelled.
- MatrixKernels.MatMatMult and the other kernels compute over the reals; rounding is not modelled. The rotation matrix is an arbitrary argument, so quaternions and trigonometry are not needed.
- storage_sqlite.c, CSP internals, drivers, console, logging, igrf13.c and the ADCS commands are I/O or constants and would add only easy members.
- Parameter parsing with sscanf and memory leaks: each command starts from parsed arguments.
