# DFU bootloader: verified model

A Dafny 4.11 model of the firmware-update stack of the STM32F401 bootloader, and proofs about
it. Four state machines sit on top of each other over one mutable flash:

1. the **flash driver** (`Memory`, `Sector`), which erases sectors and programs 1, 2 or 4 bytes
   at a time, each operation started once and completed by polling, with read-back;
2. the **programming machine** (`Program`), which cuts blocks into aligned pieces, erases each
   sector when it enters it, and on finalisation erases the remaining sectors and writes a
   manifest (length and digest) at the top of sector 7;
3. the **handler** (`DFUModeImpl`), which is resting, downloading, manifesting, uploading or
   failed;
4. the **USB class** (`DFUModeClass`), the protocol machine of the USB Device Class
   Specification for Device Firmware Upgrade 1.1 (states of Appendix A, DFU_GETSTATUS of
   section 6.1.2). Where the code departs from the specification's table the model follows the
   code: GETSTATUS is answered in dfuDNBUSY, ABORT stalls in dfuDNLOAD-IDLE.

The layers lean on each other without saying so: the program expects the driver to be busy with
exactly the operation it waits for, the class expects the handler to be in a matching phase, and
the manifest is a digest of whatever flash holds when it is computed. The central proof object is
one invariant across the layers (`Session.InSession`, `Device.Sound`), kept by every step
whatever the flash controller answers. From it follow safety over all runs, the exact outcome of
every download on working flash, and the round trip from download to upload.

## How it is laid out

| files | contents |
|---|---|
| Bytes, Dfu, Platform | flash bytes and little-endian integers, error and state codes, memory map, sectors, manifest |
| MemoryDriver, Programming, DfuHandler, DfuClass | the four machines in the source's own form: classes whose methods update fields and flash in place; every method's `ensures` equates the new state and the result with the specification function of the old state |
| FlashSpec, ProgramSpec, HandlerSpec, ClassSpec, Device | those specification functions, on values; `Device.Move` is one event of the whole stack, `Device.Run` a list of events |
| Session, SessionSteps, Order | the session invariant, that every operation keeps it or stops safely, and what it says about the order of flash operations |
| Download, Counts, Install | whole sessions on working flash: outcome, exact number of operations, final flash |
| HandlerAnswers | every answer and error of the handler, told from its phase, the controller's report and what flash then holds |
| HandlerSteps, ClassRuns, Guarantees, Panics | properties of all runs: confinement, coupling, protocol order, replies and timing for an arbitrary handler, conservation, absence of panics |
| Firmware, Upload | the manifest and the validity check, reading the application back |
| Waiting, Protocol, Exchange | a host that follows the protocol, under any mixture of polls and status requests while it waits; what it can rely on |
| Aftermath | where the code falls short of what the protocol suggests, with examples |

## Modelling choices

- **Hardware is an input.** Each status reading is `Busy`, `Clean` (completed as flash should:
  an erase leaves 0xFF, a write the AND of old and new byte) or `Fault` (completed with any
  combination of the two error bits, also none, and *any* bytes in the cells the operation was
  aimed at). Whether the controller unlocks is an input too. Properties that do not mention
  `FaultFree` hold under all of these. Cells change when the completion is read.
- **Panics are an outcome.** `unreachable!`, `assert!`, `assert_eq!` and slice bounds become
  `Panicked`, `Panics` or a halted device, never a precondition. A half word that is handed to
  the controller just before a slice-bound panic is recorded as `Stray`.
- **History variables** are read by no operation: `Mem.log` (flash operations handed over),
  `Prog.hist` (flash at the start of the session, bytes accepted), `Device.origin` and
  `Device.received`.
- **The digest** is an uninterpreted function of the image with length 20 or 32, according to
  the build's choice of SHA-1 or SHA-256. Nothing is claimed about collisions.
- The capabilities and the poll timeout are parameters. Those of this board - upload, download and
  manifestation tolerance, 128 bytes, 10 ms (src/nucleo_f401re/dfu/mod.rs:6-11,
  src/nucleo_f401re/dfu/mode.rs:304) - meet every hypothesis made of them.
- A control transfer is (request, value, length, data) with the interface filter passed. The
  control buffer has 128 bytes; a reply is cut to wLength before it reaches the host.
  The `usb_device` crate is not part of this model.
- The source's `data[..data_len]` and `src[..to_write]` are modelled as the filled part of the
  buffer. Shifts and masks are written with `/` and `%`.
- `hide` statements only keep definitions out of a proof that does not need them.

## What the proofs turned up

- A block whose end address is 3 modulo 4 panics, and no other block that fits does
  (`ChunkableIff`, `DriveBlock`, `SessionFate`; `ThreeBytesPanic` is an instance). The driver
  takes two bytes at an address that is 2 modulo 4 without looking at how many there are.
  `PanicIff` and `RunPanicsIff` say for every event and every run exactly when the firmware
  panics.
- CLRSTATUS resets the class but not the handler. A download from dfuIDLE that is seen through
  installs its own blocks if and only if the handler was resting and the blocks fit and can be
  cut (`OwnBlocksInEveryRun`). After an abandoned download it ends in dfuIDLE with the abandoned
  bytes in front of its own (`AbandonedIsPrepended`, `AbandonedExample`); `HostDownloadFate` and
  `NextDownload` give the outcome for every state of the handler.
- An upload gives up a whole control buffer per request, whatever wLength is, and ABORT resets the
  class but not the handler. In every run, a host in dfuIDLE reads the application back exactly if
  there is none, or the handler rests, dfuIDLE admits wLength, and either wLength is 128 or the
  application fits into one request and one buffer (`ReadBackInEveryRun`).
  Otherwise it gets what `ReadBackFromIdle` says: after an aborted upload the rest of the
  application in place of the whole (`AbortedUploadExample`), after a read-back that ended with a
  short block nothing (`SecondReadExample`), with half a buffer per request half of each buffer
  (`HalfABuffer`). `BlocksAreGiven` covers any list of requests.
- After a complete read-back the next download is accepted exactly if the last block was empty
  (`Notices`: for wLength up to 128, if the length read is a multiple of 128, or leaves at least
  wLength bytes over one). Otherwise, and after an aborted upload, the handler still thinks it is
  uploading, and fails (`DownloadAfterUpload`, `DownloadAfterAbort`;
  `HundredBytesBlockDownload` and `AbortBlocksDownload` are instances).
- Once the handler has failed, nothing but a reset brings it back (`FailureIsFinal`).
- An error during manifestation reaches the host under its own code exactly if a poll of the class
  finds it. A status request that finds it reports errSTALLEDPKT (`ManifestErrorIff`;
  `WriteErrorHidden` is an instance).
- On a device that is not manifestation-tolerant dfuMANIFEST-WAIT-RESET is entered when the time
  is up, finished or not (`WaitResetTooEarly`). The session is installed there exactly if enough
  operations were completed before (`WaitResetInstalledIff`, `WaitResetMeans`).
- The bootloader is safe all the same: in every run its two sectors keep their contents
  (`RunKeeps`).

## Model

| member | source | states |
|---|---|---|
| Bytes.AndErased | src/nucleo_f401re/bootloader.rs:125-148 | an erased cell takes any byte written to it, so a write over erased flash passes its read-back |
| Bytes.AndKeepsCommonBits | src/nucleo_f401re/bootloader.rs:167-223 | a write leaves in each cell exactly the bits that both the cell and the byte had |
| Bytes.LeRoundTrip | usbd-dfu/src/mode.rs:221-223 | reading back `width` little-endian bytes yields the number if and only if it fits |
| Dfu.ErrorCodes | usbd-dfu/src/lib.rs:57-96 | error codes count from 1 in the order of the specification's table |
| Dfu.StateCodes | usbd-dfu/src/lib.rs:115-131 | state codes count from 0 in the order of the specification's table |
| Platform.ManifestRegion | src/nucleo_f401re/mod.rs:26-28 | the manifest has 24 bytes with SHA-1 and 36 with SHA-256, a whole number of words, and for both its region is the manifest rounded up to 128 bytes |
| Platform.TryFromRefinesTable | src/nucleo_f401re/bootloader.rs:39-54 | the shift-and-mask lookup returns the one table row that contains the address and errs exactly outside flash |
| Platform.SectorsTile | src/nucleo_f401re/bootloader.rs:11-20 | the sectors tile flash in order on word boundaries; only sector 7 reaches into the manifest region |
| Platform.ApplicationCells | src/nucleo_f401re/dfu/mode.rs:15-23 | for every flash and length: the slice is the region from its first byte, of the given length or 491392 bytes if that is less |
| Platform.HeldApplication | src/nucleo_f401re/dfu/mode.rs:15-23 | the application slice of a given length is the image, if the image lies at the start of the region |
| FlashSpec.PollFrame | src/nucleo_f401re/bootloader.rs:102-150 | a poll changes no cell outside the target of the operation in flight, whatever the controller answers |
| FlashSpec.PollVerified | src/nucleo_f401re/bootloader.rs:102-150 | a poll that reports success has found the target as asked for (sector blank, or bytes in place), everything else unchanged; a pending poll changes nothing; a poll never panics |
| FlashSpec.PollVerdict | src/nucleo_f401re/bootloader.rs:102-150 | a poll waits exactly while the controller is busy; a finished operation succeeds if and only if both error bits are clear and the target reads as asked for, and otherwise fails with errWRITE, errERASE or errPROG, errCHECK_ERASED or errVERIFY, in this order |
| FlashSpec.CellsAfter | src/nucleo_f401re/bootloader.rs:102-150 | what a finished operation leaves in each cell of its target |
| FlashSpec.PollIdle | src/nucleo_f401re/bootloader.rs:105 | a driver with nothing in flight reports success and changes nothing |
| FlashSpec.StartOutcome | src/nucleo_f401re/bootloader.rs:167-223 | a write is refused on a locked controller, panics exactly where no piece can be cut, and is otherwise in flight with the first bytes of what it was given |
| FlashSpec.ChunkLargest | src/nucleo_f401re/bootloader.rs:172-182 | a piece is the largest aligned power of two that fits, except that two bytes are asked for at an address 2 modulo 4 even if there is one |
| FlashSpec.CleanSucceeds | src/nucleo_f401re/bootloader.rs:102-150 | on working flash an erase never fails, nor does a write to blank cells |
| FlashSpec.ChunkableIff | src/nucleo_f401re/bootloader.rs:172-189 | repeated program operations consume [addr, addr+len) exactly if and only if addr+len is not 3 modulo 4 |
| FlashSpec.ChunkAligned | src/nucleo_f401re/bootloader.rs:172-189 | each piece is 1, 2 or 4 bytes, naturally aligned, and crosses neither a sector end nor the start of the manifest region |
| FlashSpec.ChunkStep | src/nucleo_f401re/dfu/mode.rs:154-177 | stepping over a piece stays in the sector, arrives at the first byte of the next one, or at the end of flash |
| MemoryDriver.BlankWord | src/nucleo_f401re/bootloader.rs:24-27 | a word equals 0xFFFF_FFFF if and only if its four bytes are erased |
| MemoryDriver.Memory.constructor | src/nucleo_f401re/bootloader.rs:84-89 | a new driver is idle over the given cells |
| MemoryDriver.Memory.IsErased | src/nucleo_f401re/bootloader.rs:24-34 | the word-by-word loop returns true if and only if every byte of the sector reads 0xFF |
| MemoryDriver.Memory.Poll | src/nucleo_f401re/bootloader.rs:102-150 | in place: cells, state and result after one status reading, in every case of error bits and read-back |
| MemoryDriver.Memory.StartErase | src/nucleo_f401re/bootloader.rs:152-165 | in place: the erase is started and remembered, or refused with errWRITE if the controller stays locked |
| MemoryDriver.Memory.StartProgram | src/nucleo_f401re/bootloader.rs:167-223 | in place: the width chosen by the bit tests, the bytes handed over, and the panics on too little data |
| Programming.Program.Open | src/nucleo_f401re/dfu/mode.rs:70-94 | in place: a session opened with the erase of sector 2, refused, or crashed on a block larger than the buffer |
| Programming.Program.Update | src/nucleo_f401re/dfu/mode.rs:95-117 | in place: memory, program and result after a further block, including the refusal out of turn |
| Programming.Program.Finalize | src/nucleo_f401re/dfu/mode.rs:118-127 | in place: memory, program and result of starting manifestation |
| Programming.Program.Poll | src/nucleo_f401re/dfu/mode.rs:128-137 | in place: memory, program and result of one poll, in every state |
| Programming.Program.Continue | src/nucleo_f401re/dfu/mode.rs:136-199 | in place: what follows a completed flash operation in each of the states |
| Programming.Program.EraseOrProgram | src/nucleo_f401re/dfu/mode.rs:202-243 | in place: address check, erase on entering a new sector, otherwise the next piece |
| Programming.Program.EraseOrProgramManifest | src/nucleo_f401re/dfu/mode.rs:245-275 | in place: erase of the next sector, or digest of what is in flash and the first manifest word |
| Programming.Program.Clone | src/nucleo_f401re/dfu/mode.rs:347-350 | the copy taken for manifestation is in the same state |
| DfuHandler.DfuModeImpl.constructor | src/nucleo_f401re/dfu/mode.rs:293-299 | a new handler rests |
| DfuHandler.DfuModeImpl.IsFirmwareValid | src/nucleo_f401re/dfu/mode.rs:306-330 | boot pin, digest and boot vectors decide, in this order |
| DfuHandler.DfuModeImpl.IsTransferComplete | src/nucleo_f401re/dfu/mode.rs:331-341 | yes exactly if a download waits for data, an error outside a download; nothing changes |
| DfuHandler.DfuModeImpl.IsManifestationInProgress | src/nucleo_f401re/dfu/mode.rs:342-367 | in place: handler and answer in every phase, every error leading to the failed phase |
| DfuHandler.DfuModeImpl.Poll | src/nucleo_f401re/dfu/mode.rs:369-385 | in place: handler and answer of a poll in every phase |
| DfuHandler.DfuModeImpl.Upload | src/nucleo_f401re/dfu/mode.rs:387-412 | in place: the front of the buffer holds the next bytes of the application, the rest of it is untouched, the slice has moved on |
| DfuHandler.DfuModeImpl.Download | src/nucleo_f401re/dfu/mode.rs:413-433 | in place: handler and answer of a block in every phase, including the early return that leaves the handler resting |
| DfuClass.DfuModeClass.constructor | usbd-dfu/src/mode.rs:32-45 | the class starts idle, or in dfuERROR with errFIRMWARE if the firmware is not valid |
| DfuClass.DfuModeClass.AcceptGetState | usbd-dfu/src/mode.rs:212-214 | whole device and reply to GETSTATE, in every state that answers it |
| DfuClass.DfuModeClass.AcceptGetStatus | usbd-dfu/src/mode.rs:215-226 | the six status bytes for the present state and the given timeout |
| DfuClass.DfuModeClass.Stall | usbd-dfu/src/mode.rs:228-235 | rejected, and dfuERROR with errSTALLEDPKT |
| DfuClass.DfuModeClass.AcceptDownload | usbd-dfu/src/mode.rs:172-185 | whole device and reply after a first block, including the assertion on its length |
| DfuClass.DfuModeClass.HandOver | usbd-dfu/src/mode.rs:97-103 | whole device and reply after a further block |
| DfuClass.DfuModeClass.AcceptUpload | usbd-dfu/src/mode.rs:187-210 | whole device and reply: idle after a short block, dfuERROR with an empty reply on failure |
| DfuClass.DfuModeClass.IdleIn | usbd-dfu/src/mode.rs:47-57 | whole device and reply to every IN request in dfuIDLE |
| DfuClass.DfuModeClass.IdleOut | usbd-dfu/src/mode.rs:58-65 | the same for OUT requests in dfuIDLE |
| DfuClass.DfuModeClass.DownloadSyncIn | usbd-dfu/src/mode.rs:66-80 | the same for IN requests in dfuDNLOAD-SYNC and dfuDNBUSY |
| DfuClass.DfuModeClass.DownloadIdleIn | usbd-dfu/src/mode.rs:82-89 | the same for IN requests in dfuDNLOAD-IDLE |
| DfuClass.DfuModeClass.DownloadIdleOut | usbd-dfu/src/mode.rs:90-115 | the same for OUT requests in dfuDNLOAD-IDLE, including the empty block that ends a download |
| DfuClass.DfuModeClass.ManifestSyncIn | usbd-dfu/src/mode.rs:116-133 | the same for IN requests in dfuMANIFEST-SYNC and dfuMANIFEST |
| DfuClass.DfuModeClass.AskManifestation | usbd-dfu/src/mode.rs:120-130 | the same for GETSTATUS there: busy, done and tolerant, or stalled |
| DfuClass.DfuModeClass.UploadIn | usbd-dfu/src/mode.rs:134-142 | the same for IN requests in dfuUPLOAD-IDLE |
| DfuClass.DfuModeClass.UploadOut | usbd-dfu/src/mode.rs:143-152 | the same for OUT requests in dfuUPLOAD-IDLE |
| DfuClass.DfuModeClass.ErrorIn | usbd-dfu/src/mode.rs:153-160 | the same for IN requests in dfuERROR, where nothing changes |
| DfuClass.DfuModeClass.ErrorOut | usbd-dfu/src/mode.rs:161-170 | the same for OUT requests in dfuERROR |
| DfuClass.DfuModeClass.QuietIn | usbd-dfu/src/mode.rs:314 | in dfuMANIFEST-WAIT-RESET every IN request gets an empty reply and changes nothing |
| DfuClass.DfuModeClass.StrayIn | usbd-dfu/src/mode.rs:317-320 | in the run-time states every IN request stalls |
| DfuClass.DfuModeClass.ControlIn | usbd-dfu/src/mode.rs:300-322 | every IN request in every state does what `Device.Move` says, through all layers |
| DfuClass.DfuModeClass.ControlOut | usbd-dfu/src/mode.rs:323-343 | the same for every OUT request |
| DfuClass.DfuModeClass.Poll | usbd-dfu/src/mode.rs:237-265 | the same for the periodic poll |
| HandlerAnswers.TransferAnswers | src/nucleo_f401re/dfu/mode.rs:331-341 | yes, no or errUNKNOWN in each phase, and nothing changes |
| HandlerAnswers.ManifestationAnswers | src/nucleo_f401re/dfu/mode.rs:342-367 | in each phase exactly when the answer is yes, no, or which error, and that every error leaves the handler failed |
| HandlerAnswers.PollAnswers | src/nucleo_f401re/dfu/mode.rs:369-385 | exactly when a poll is without effect, comes to rest, or fails, and with which error |
| HandlerAnswers.DownloadAnswers | src/nucleo_f401re/dfu/mode.rs:413-433 | with a block of any size, in each phase exactly when it is taken, panics, or fails and with which error; only a session that cannot be opened leaves the handler at rest |
| HandlerAnswers.PollComes | src/nucleo_f401re/dfu/mode.rs:128-200 | one poll of a session: what the driver complains of is passed on; after a success it is through exactly at the last manifest word, and fails exactly where flash ends or the controller stays locked |
| SessionSteps.NewOpens | src/nucleo_f401re/dfu/mode.rs:70-94 | a session opens if and only if the block fits the buffer and the controller unlocks; then the session invariant holds with nothing written, otherwise memory is unchanged; a crash, errADDRESS and errWRITE each have their exact condition |
| SessionSteps.UpdateKeeps | src/nucleo_f401re/dfu/mode.rs:95-117 | a further block keeps the invariant and is appended to the accepted bytes, or nothing is accepted; it fails exactly at the manifest boundary or on a locked controller, and panics exactly where no sector is to be erased first and no piece can be cut |
| SessionSteps.FinalizeKeeps | src/nucleo_f401re/dfu/mode.rs:118-127 | manifestation starts if and only if the program waits for data and the controller unlocks, and otherwise fails with errUNKNOWN or errWRITE; the invariant is kept, and its `unreachable!` is not reached |
| SessionSteps.PollKeeps | src/nucleo_f401re/dfu/mode.rs:128-200 | one poll, under any answer of the controller, keeps the invariant or stops with the bootloader untouched and nothing new started; a panic only while receiving a block that cannot be cut |
| SessionSteps.ContinueKeeps | src/nucleo_f401re/dfu/mode.rs:136-199 | the same for the half of a poll after a verified operation |
| SessionSteps.PollLastChunk | src/nucleo_f401re/dfu/mode.rs:154-164 | writing the last piece ends the block: the program waits for data, with the invariant |
| SessionSteps.PollMoreChunks | src/nucleo_f401re/dfu/mode.rs:165-177 | writing an earlier piece goes on with exactly the rest, failing only at the manifest boundary or on a locked controller |
| SessionSteps.PollBlockErased | src/nucleo_f401re/dfu/mode.rs:138-153 | after the erase that precedes a piece, that piece is written, no byte of the block having been consumed |
| SessionSteps.PollSectorErased | src/nucleo_f401re/dfu/mode.rs:180 | an erase during finalisation leads to the next erase or to the manifest, keeps the invariant, never panics |
| SessionSteps.PollManifestWord | src/nucleo_f401re/dfu/mode.rs:181-196 | a manifest word is followed by the next word or by the end; its assertion never fails |
| SessionSteps.LockedLeaves | src/nucleo_f401re/dfu/mode.rs:202-275 | what a locked controller leaves of the program |
| SessionSteps.DonePanics | src/nucleo_f401re/dfu/mode.rs:197 | polling a program that is done panics and changes nothing |
| Session.WrittenChunk | src/nucleo_f401re/dfu/mode.rs:154-164 | a verified piece moves from pending to written: flash up to the new address followed by the rest is still what was accepted |
| Session.IssueErase | src/nucleo_f401re/dfu/mode.rs:219-229 | a change of sector is a step to the next sector at its first byte; its erase touches nothing written |
| Session.FinalErase | src/nucleo_f401re/dfu/mode.rs:246-252 | an erase during finalisation lies above everything written and keeps the invariant |
| Session.StartManifest | src/nucleo_f401re/dfu/mode.rs:254-273 | the manifest that is started is length and digest of exactly the accepted bytes |
| Session.LastManifestWord | src/nucleo_f401re/dfu/mode.rs:186-188 | after the last word the session is done and the whole manifest is in flash |
| Order.EraseOrder | src/nucleo_f401re/dfu/mode.rs:214-225 | the erases of a session so far are sectors 2, 3, ... up to the current one, once each, in order |
| Order.WritesOnce | src/nucleo_f401re/dfu/mode.rs:154-178 | writes of a session never overlap and go upwards: each byte is programmed at most once |
| Order.WriteErasedFirst | src/nucleo_f401re/dfu/mode.rs:202-243 | every write is aligned and lies whole in a sector erased earlier in the session, with no erase in between, on one side of the manifest boundary |
| Order.ManifestLast | src/nucleo_f401re/dfu/mode.rs:245-275 | before the first manifest byte sectors 2 to 7 have all been erased; after it only manifest bytes are written |
| Download.CleanReady | src/nucleo_f401re/dfu/mode.rs:128-200 | on working flash no operation of a session ever fails its read-back |
| Download.DriveBlock | src/nucleo_f401re/dfu/mode.rs:128-243 | any block from any point of a session, under any schedule of polls: once it is through it is written in full, has failed with errADDRESS on a full region, or has panicked, decided by its end address alone; and it is through after enough completions |
| Download.FilledUp | src/nucleo_f401re/dfu/mode.rs:210-212 | a block that runs into the manifest boundary has filled the application region to the last byte |
| Counts.BlockCostStep | src/nucleo_f401re/bootloader.rs:172-182 | each piece takes exactly one operation off the cost of a block, also where it ends a sector |
| Counts.CleanCounts | src/nucleo_f401re/dfu/mode.rs:128-200 | on working flash each completion brings a session exactly one operation closer to its end, and no poll fails |
| Counts.DriveExact | src/nucleo_f401re/dfu/mode.rs:128-200 | under every schedule a block or a manifestation is through after exactly the remaining number of completions, not one earlier or later |
| Counts.DriveDecided | src/nucleo_f401re/dfu/mode.rs:128-243 | the same for a block of any fate: written, refused on a full region, or fatal, after exactly the operations it had ahead |
| Counts.NewCost | src/nucleo_f401re/dfu/mode.rs:78-93 | the first block costs the erase of sector 2 and its pieces |
| Counts.UpdateCost | src/nucleo_f401re/dfu/mode.rs:202-243 | a further block costs its pieces, and one erase more exactly if it ends in a new sector |
| Counts.FinalizeCost | src/nucleo_f401re/dfu/mode.rs:245-275 | manifestation from sector k costs 7-k erases and one write for each manifest word |
| Install.DoneInstalled | src/nucleo_f401re/dfu/mode.rs:181-189 | a session that is done has installed exactly what it accepted: bootloader as before, image, blanks, manifest, blanks - the whole flash, however the controller behaved |
| Install.DoneOrdered | src/nucleo_f401re/dfu/mode.rs:245-253 | a session that is done has erased sectors 2 to 7, once each, in order |
| Install.FullMeans | src/nucleo_f401re/dfu/mode.rs:210-212 | a session that ran out of room has written exactly APPLICATION_LENGTH bytes of what it was sent, and never a manifest byte |
| Install.FateIff | src/nucleo_f401re/dfu/mode.rs:202-243 | no block is in trouble if and only if every cumulative end lies below the manifest and is not 3 modulo 4 |
| Install.FeedBlock | src/nucleo_f401re/dfu/mode.rs:95-200 | one block from a waiting program, accepted or refused at once: its end address decides what it comes to |
| Install.FeedDecided | src/nucleo_f401re/dfu/mode.rs:95-243 | a block is through if and only if as many operations were completed as its pieces below the manifest, plus one if they end in a new sector |
| Install.FirstDecided | src/nucleo_f401re/dfu/mode.rs:70-200 | the same for the first block, with the erase of sector 2 on top |
| Install.FeedAllFate | src/nucleo_f401re/dfu/mode.rs:95-200 | any list of blocks ends as the first one in trouble does, or with all of them appended and written |
| Install.CloseInstalls | src/nucleo_f401re/dfu/mode.rs:118-200 | on working flash finalisation is done after exactly as many completions as it costs, with the accepted bytes unchanged |
| Install.SessionFate | src/nucleo_f401re/dfu/mode.rs:70-275 | every session on working flash that is polled to its end, for all lists of non-empty blocks of at most 128 bytes and all schedules: exactly the concatenation installed and sectors 2 to 7 erased once each in order; or errADDRESS with the region full; or a panic - decided by the block ends; and long schedules do reach the end |
| HandlerSteps.ManifestationKeeps | src/nucleo_f401re/dfu/mode.rs:342-367 | keeps phase, program and driver coherent and the bootloader sectors untouched; never panics |
| HandlerSteps.PollHandlerKeeps | src/nucleo_f401re/dfu/mode.rs:369-385 | the same unless it panics; a downloading handler stays downloading or fails, it never comes to rest |
| HandlerSteps.DownloadKeeps | src/nucleo_f401re/dfu/mode.rs:413-433 | the same for a block of any size in any phase |
| HandlerSteps.UploadKeeps | src/nucleo_f401re/dfu/mode.rs:387-412 | the same for an upload, which changes no flash |
| HandlerSteps.OrderedConfined | src/nucleo_f401re/dfu/mode.rs:202-275 | operations in order stay off sectors 0 and 1, and no write straddles the manifest boundary |
| ClassRuns.DownloadsAreConfirmed | usbd-dfu/src/mode.rs:58-115 | for any handler, in any run: between two blocks handed over the handler has confirmed completion, unless the host cleared an error in between |
| ClassRuns.ManifestationIsConfirmed | usbd-dfu/src/mode.rs:90-133 | for any handler: manifestation is never asked for after a block without a confirmation in between, errors cleared or not |
| ClassRuns.OnlyAllowedStates | usbd-dfu/src/mode.rs:47-65 | a device that cannot download reaches no download or manifest state, one that cannot upload not dfuUPLOAD-IDLE, a tolerant one not dfuMANIFEST-WAIT-RESET |
| ClassRuns.OnlyAllowedCalls | usbd-dfu/src/mode.rs:90-103 | nor is the handler called for what it cannot do, although dfuDNLOAD-IDLE does not check again; it is polled only in dfuDNBUSY and dfuMANIFEST |
| ClassRuns.WaitResetIsFinal | usbd-dfu/src/mode.rs:314-335 | no run leaves dfuMANIFEST-WAIT-RESET or calls the handler there |
| ClassRuns.ErrorLatched | usbd-dfu/src/mode.rs:153-170 | an error is kept, and the handler left alone, through every run without CLRSTATUS; CLRSTATUS then leads to dfuIDLE |
| ClassRuns.StatusTellsTruth | usbd-dfu/src/mode.rs:215-226 | every GETSTATUS of a run is answered with six bytes - status, the low 24 bits of the timeout, the state after answering, 0 - and leads where the handler's answer says; except that dfuMANIFEST-WAIT-RESET keeps silent, and that a manifestation that failed, or is through on a device that is not tolerant, is rejected with errSTALLEDPKT |
| ClassRuns.TicksCountDown | usbd-dfu/src/mode.rs:237-265 | for every list of polls with any times: dfuDNBUSY and dfuMANIFEST are left, and for which state, exactly when the whole timeout has passed; before that exactly the rest remains |
| ClassRuns.TickAnswers | usbd-dfu/src/mode.rs:237-265 | a poll that finds the handler failing shows its error; in every other state a poll does nothing |
| ClassRuns.InAnswers | usbd-dfu/src/mode.rs:300-322 | the IN requests each state serves; every other stalls with errSTALLEDPKT, is rejected in dfuERROR, and is swallowed in dfuMANIFEST-WAIT-RESET, without a call of the handler; what becomes of an upload the handler serves or refuses |
| ClassRuns.OutAnswers | usbd-dfu/src/mode.rs:323-343 | the same for OUT requests, with state, reply and handler call of each |
| ClassRuns.StateTellsTruth | usbd-dfu/src/mode.rs:212-214 | every GETSTATE of a run changes nothing, calls no handler, and its one byte tells the state apart from every other; only dfuMANIFEST-WAIT-RESET keeps silent |
| Device.ReactMoves | src/nucleo_f401re/dfu/mode.rs:331-433 | what the class relies on: how each kind of call may change the handler's phase |
| Device.CouplingKept | usbd-dfu/src/mode.rs:47-265 | class state and handler phase stay compatible through every event |
| Device.ManifestationInstalls | src/nucleo_f401re/dfu/mode.rs:342-385 | manifestation comes to rest only with the accepted bytes installed |
| Device.DownloadRecords | src/nucleo_f401re/dfu/mode.rs:413-433 | a block that is accepted is appended to the session, or opens one that starts from the present flash |
| Device.MoveKeeps | usbd-dfu/src/mode.rs:300-343 | one event of the whole stack keeps it safe and sound, for any event and any behaviour of the controller |
| Device.RunKeepsOn | usbd-dfu/src/mode.rs:300-343 | a run from any safe and sound device stays safe and sound |
| Device.RunKeeps | src/nucleo_f401re/mod.rs:1-13 | in every run from power-on sectors 0 and 1 keep their contents and are never the target of an operation, and class, handler, program and driver agree until a panic |
| Device.IdleAfterManifestMeansInstalled | usbd-dfu/src/mode.rs:120-128 | in every run, when the class answers GETSTATUS of a manifestation by going idle, flash holds exactly the bytes the host had sent, with their manifest, however the controller behaved |
| Guarantees.StartShows | usbd-dfu/src/mode.rs:32-45 | on any flash the device starts in dfuIDLE if and only if the boot pin is high, both boot words are in range and the manifest describes the application, and otherwise in dfuERROR with errFIRMWARE |
| Guarantees.InterruptedStart | src/nucleo_f401re/dfu/mode.rs:306-330 | after a session cut off in any run with the manifest still blank, it does so only if the digest of the whole region is all 0xFF |
| Guarantees.FlashErrorShows | usbd-dfu/src/mode.rs:248-261 | in dfuDNBUSY and dfuMANIFEST an operation that a poll finds finished with an error bit, or its target not as asked for, shows exactly that error in dfuERROR |
| Guarantees.DeviceIsClassRun | usbd-dfu/src/mode.rs:300-343 | until it panics every device run is a run of the class with this handler's answers |
| Guarantees.StatusInEveryRun | usbd-dfu/src/mode.rs:215-226 | in every run of the device a status request gets six true bytes, or silence in dfuMANIFEST-WAIT-RESET, or stalls on a failed manifestation |
| Guarantees.EveryByteAccounted | src/nucleo_f401re/dfu/mode.rs:154-178 | at every moment of every run of a download: application bytes up to the write address followed by the pending bytes are what the host has sent |
| Guarantees.WritesMeetBlankCells | src/nucleo_f401re/dfu/mode.rs:202-275 | in every run a write in flight is aimed at cells that still read 0xFF, inside the last erased sector, at the write address |
| Guarantees.ManifestInSession | src/nucleo_f401re/dfu/mode.rs:245-275 | while a session is under way in any run, with any faults, the manifest region is the session's original until sector 7 is erased, then a prefix of the new manifest followed by blanks |
| Guarantees.ManifestInEveryRun | src/nucleo_f401re/dfu/mode.rs:245-275 | at every moment of every run without flash faults, also after a failure or a panic, the manifest region is the last session's original, or whole words of a prefix of that session's manifest (none, some or all) followed by blanks |
| Guarantees.OneAtATime | src/nucleo_f401re/bootloader.rs:152-223 | in every run an event starts at most one flash operation, and only if the driver is idle or this very event has read that the previous operation finished |
| Panics.SteadyMove | src/nucleo_f401re/dfu/mode.rs:95-200 | one event with a block that fits and does not end 3 modulo 4 does not panic, whatever the controller does |
| Panics.PoliteRunsDoNotPanic | src/nucleo_f401re/bootloader.rs:172-189 | what a host can do to be sure: no `unreachable!`, assertion or slice bound is hit in a run in which every block has the announced length of at most 128 bytes and does not end 3 modulo 4 |
| Panics.PanicIff | src/nucleo_f401re/dfu/mode.rs:95-243 | an event makes a running device panic if and only if it is a first block of another length than announced, a block larger than the buffer, a block whose first piece cannot be cut, or a poll that finds the next piece cannot |
| Panics.RunPanicsIff | src/nucleo_f401re/dfu/mode.rs:95-243 | a run ends in a panic if and only if it contains such an event |
| Firmware.ManifestConsistent | src/nucleo_f401re/dfu/mode.rs:245-275 | between any two operations the manifest region is the old one, or whole words of a prefix of the new one followed by blanks |
| Firmware.ManifestComesLast | src/nucleo_f401re/dfu/mode.rs:254-273 | once a manifest byte has been handed over, the whole image is in flash, the rest of the region blank, and every sector was erased before |
| Firmware.FlashValidIff | src/nucleo_f401re/dfu/mode.rs:306-330 | for every flash: valid if and only if the pin is high, both boot words are in range, and there is an image of the manifest's length, or of the whole region if that is less, in the region whose digest the manifest holds |
| Firmware.BlankManifestValidIff | src/nucleo_f401re/dfu/mode.rs:306-330 | with a blank manifest that comes down to the digest of the whole region being all 0xFF |
| Firmware.InstalledReads | src/nucleo_f401re/dfu/mod.rs:23-33 | an installed manifest reads back as the image's length and digest, and selects the image |
| Firmware.ValidIff | src/nucleo_f401re/dfu/mode.rs:306-330 | after a completed session the firmware is valid if and only if the boot pin is high and both boot vectors are in range |
| Firmware.ShortImageInvalid | src/nucleo_f401re/dfu/mode.rs:319-326 | an image of fewer than 8 bytes is never valid |
| Firmware.ImageValidIff | src/nucleo_f401re/dfu/mode.rs:306-330 | after a completed session the firmware is valid if and only if the boot pin is high and the image's own first two words are in range |
| Upload.UploadStep | src/nucleo_f401re/dfu/mode.rs:387-412 | one call sends the next bytes of what is left, and rests again exactly when it sends none |
| Upload.UploadMove | usbd-dfu/src/mode.rs:187-210 | the same through the class, with its next state, in dfuIDLE and dfuUPLOAD-IDLE and from whatever the handler has left |
| Upload.ReadBackAll | usbd-dfu/src/mode.rs:134-142 | with wLength 128 the host reads exactly what is left in floor(len/128)+1 requests and the class is idle; the handler rests exactly if the last block was empty |
| Upload.ReadBackBytes | usbd-dfu/src/mode.rs:187-210 | every byte a host gets with a fixed wLength of any size of what the handler has left |
| Upload.ReadBackEnds | src/nucleo_f401re/dfu/mode.rs:403-409 | a read-back with any wLength but 0 ends in dfuIDLE, and exactly when the handler has noticed |
| Upload.TailInEveryRun | src/nucleo_f401re/dfu/mode.rs:395-409 | in every run an uploading handler holds a proper tail of the application in flash |
| Upload.ReadBackFromIdle | usbd-dfu/src/mode.rs:47-57 | what a host gets in dfuIDLE with any wLength, for every state of the handler: the application, what an earlier upload left of it, or nothing |
| Upload.ReadBackIff | usbd-dfu/src/mode.rs:143-152 | it is the application if and only if there is none, or the handler rests, uploads are possible, dfuIDLE admits wLength, and wLength is 128 or the application fits into one request and one buffer |
| Upload.ReadBackInEveryRun | usbd-dfu/src/mode.rs:143-152 | the same at every moment of every run from power-on that stands in dfuIDLE |
| Upload.ReadBackCells | src/nucleo_f401re/dfu/mode.rs:15-27 | for every flash: the cells a resting handler gives up, by address, as far as the manifest's length word says but no further than the region |
| Upload.BlankManifestReadBack | src/nucleo_f401re/dfu/mode.rs:395-397 | with a blank manifest these are the whole region |
| Upload.UploadRefused | src/nucleo_f401re/dfu/mode.rs:398-401 | an upload while a session is open, or after a failure, shows errUNKNOWN with an empty reply and leaves the handler as it is |
| Upload.BlocksAreGiven | usbd-dfu/src/mode.rs:187-210 | what every one of a list of upload requests gets, with any lengths and numbers, from the application and what is left of it alone |
| Upload.HalfABuffer | usbd-dfu/src/mode.rs:187-210 | with wLength 64 a host gets 128 of 200 bytes |
| Upload.AbortKeepsUpload | usbd-dfu/src/mode.rs:146-149 | ABORT in dfuUPLOAD-IDLE changes the class state and nothing else |
| Upload.AbortedUploadExample | usbd-dfu/src/mode.rs:146-149 | one block of 200 bytes, ABORT, read back: the host gets the last 72 bytes |
| Upload.SecondReadExample | src/nucleo_f401re/dfu/mode.rs:403-409 | 100 bytes read back twice: nothing the second time |
| Waiting.PausesAreQuiet | usbd-dfu/src/mode.rs:237-265 | polls and status requests change nothing in the states that wait for the host |
| Waiting.AwaitIsDrive | usbd-dfu/src/mode.rs:66-80 | any sequence of polls after any times and requests for status or state, in dfuDNLOAD-SYNC and dfuDNBUSY, drives the program exactly as polling it with the readings taken in dfuDNBUSY; dfuDNLOAD-IDLE is shown only once the block is written |
| Waiting.AwaitManifestIsDrive | usbd-dfu/src/mode.rs:116-133 | the same for manifestation, where a status request polls as well, tolerant device or not |
| Waiting.RoundsComplete | usbd-dfu/src/mode.rs:66-80 | alternating status requests and polls complete one operation a round, so that long enough schedules exist |
| Protocol.SendAndAwait | usbd-dfu/src/mode.rs:90-103 | a block sent and waited for through the class is a block fed to the program; when the host asks, the wait is over if and only if the block's cost in operations was completed |
| Protocol.OpeningTakes | usbd-dfu/src/mode.rs:58-65 | the same for the first block of a session |
| Protocol.SendIsFeed | usbd-dfu/src/mode.rs:90-103 | the same for a list of blocks, under any schedule |
| Protocol.SendIsLoad | usbd-dfu/src/mode.rs:58-65 | the same for a list of blocks that opens a session |
| Protocol.CloseByHost | usbd-dfu/src/mode.rs:104-133 | ending a download on working flash, under any schedule: the handler rests after exactly as many completions as the manifestation costs, with the session installed, and the next status request shows dfuIDLE |
| Protocol.HostDownloadFate | usbd-dfu/src/mode.rs:58-133 | every download from dfuIDLE seen from the USB side, under any schedule in which the host waits, for every state of the handler: dfuIDLE with the concatenation - behind an unfinished session's bytes, if any - installed; or dfuERROR with errADDRESS and the region full; or a panic; or errUNKNOWN with flash untouched if the handler takes no blocks |
| Protocol.TimelyIsThrough | usbd-dfu/src/mode.rs:66-133 | such a download is through whenever its schedule holds enough completions and status requests |
| Protocol.ManifestRounds | usbd-dfu/src/mode.rs:116-133 | alternating status requests and polls complete a manifestation as well, one operation a round |
| Exchange.OwnBlocksIff | usbd-dfu/src/mode.rs:161-170 | a download that is through has installed exactly its own blocks if and only if the handler started with nothing accepted, every block fits and none ends 3 modulo 4 |
| Exchange.OwnBlocksInEveryRun | usbd-dfu/src/mode.rs:161-170 | in every run from power-on that condition is: the handler was resting, and the blocks fit and can be cut |
| Exchange.DownloadThenUpload | usbd-dfu/src/mode.rs:134-210 | what a host downloads it reads back, byte for byte, with the exact number of requests, from any state in which the handler takes blocks |
| Exchange.StartsAfterDownload | usbd-dfu/src/mode.rs:32-45 | after a download that went well the device starts in dfuIDLE if and only if the boot pin is high and the first two words it accepted are in range |
| Exchange.WaitResetMeans | usbd-dfu/src/mode.rs:255-259 | in every run dfuMANIFEST-WAIT-RESET with a resting handler means that the session's bytes are installed, and otherwise that the session is unfinished; no further event changes the device |
| Exchange.WaitResetInstalledIff | usbd-dfu/src/mode.rs:250-260 | on working flash the session is done there if and only if as many operations were completed as the manifestation had left |
| Aftermath.FailureIsFinal | src/nucleo_f401re/dfu/mode.rs:279-285 | in every run from power-on, once the handler has failed the class shows at most dfuIDLE or dfuERROR and no further events change the handler or the flash |
| Aftermath.ManifestErrorIff | usbd-dfu/src/mode.rs:120-129 | an error of the handler during manifestation is shown under its own code if and only if a poll finds it (or it is errSTALLEDPKT); otherwise errSTALLEDPKT is shown |
| Aftermath.WriteErrorHidden | usbd-dfu/src/mode.rs:129 | a write error on a manifest word: errSTALLEDPKT on GETSTATUS, errWRITE on a poll |
| Aftermath.NextDownload | src/nucleo_f401re/dfu/mode.rs:413-433 | a first block in dfuIDLE opens a session exactly if the handler rests and the controller unlocks, and leaves it at rest with errWRITE if it stays locked; in a session that was left it is appended exactly if the program waits for data, there is room, the controller unlocks and the first piece can be cut, and each other case has its own outcome |
| Aftermath.AbandonKeepsSession | usbd-dfu/src/mode.rs:161-170 | ABORT and CLRSTATUS in dfuDNLOAD-IDLE lead to dfuIDLE with the handler still in its session |
| Aftermath.AbandonedIsPrepended | usbd-dfu/src/mode.rs:161-170 | the next download, if its blocks fit and can be cut, ends in dfuIDLE with the abandoned bytes followed by its own installed |
| Aftermath.AbandonedExample | usbd-dfu/src/mode.rs:161-170 | four bytes abandoned and four downloaded: all eight are installed |
| Aftermath.DownloadAfterUpload | src/nucleo_f401re/dfu/mode.rs:403-409 | after a complete read-back with any wLength but 0, of the application or of what was left of it, the next download is accepted if and only if the last block was empty and the controller unlocks; otherwise errUNKNOWN or errWRITE |
| Aftermath.DownloadAfterAbort | usbd-dfu/src/mode.rs:146-149 | after an aborted upload it is accepted if and only if the handler rests all the same and the controller unlocks |
| Aftermath.HundredBytesBlockDownload | src/nucleo_f401re/dfu/mode.rs:403-409 | after 100 bytes were read back the next block is refused with errUNKNOWN if wLength was 128, accepted if it was 64 |
| Aftermath.AbortBlocksDownload | usbd-dfu/src/mode.rs:146-149 | one block of 256 bytes read, then ABORT: the next block is refused with errUNKNOWN |
| Aftermath.WaitResetTooEarly | usbd-dfu/src/mode.rs:255-259 | one poll that finds the flash busy for the whole timeout ends in dfuMANIFEST-WAIT-RESET with the manifestation unfinished |
| Aftermath.ThreeBytesPanic | src/nucleo_f401re/bootloader.rs:172-181 | a download of one block of three bytes panics |

## Left out

- src/duet3d.rs and src/disco_l475.rs: placeholder ports that do not match the present handler trait.
- Registers: key sequence, control and status bit layout, volatile access; only the unlock result, the start of an operation and its status reading are modelled. Error bits are those of the reading at hand, not sticky ones.
- Flash in the middle of an operation: cells change when the completion is read, so a power cut is described at operation boundaries only.
- The half word handed to the controller before a slice-bound panic: its two cells are named (`Stray`), not their contents.
- `jump_to_application`: hands control to the application, outside this stack.
- SHA-1 and SHA-256: an uninterpreted digest of the right length.
- The `usb_device` crate: endpoint handling, setup packets and data stages; a transfer arrives complete, and accepting or rejecting it always succeeds.
- usbd-dfu/src/runtime.rs: a two-state countdown, easy beside the rest.
- Descriptors, debug output, src/trace.rs, src/executor.rs, build.rs, examples and linker scripts: plumbing.
- The 32-bit width of timeouts and addresses: both are unbounded here; addresses stay below the end of flash by the session invariant, and timeouts only count down.
- PoliteRunsDoNotPanic: a sufficient condition on the host alone; the exact condition, which also depends on what the flash answers, is `PanicIff` and `RunPanicsIff`.
- ManifestInEveryRun: with a flash fault in sector 7 the region may hold anything once the session has failed, so faults are excluded there; `ManifestInSession` covers them while the session lasts.
