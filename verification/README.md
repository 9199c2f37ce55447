# Verified model of the RS-485 to MQTT gateway

The gateway polls Modbus slaves over RS-485, publishes their readings over MQTT, and keeps what it cannot publish in an
8 MB NOR flash until it is online again. This project models the parts of it that carry state or arithmetic, in Dafny
4.11, and proves what they keep in every run. `dafny verify dfyconfig.toml` checks everything.

## How it is built

**The store-and-forward cache**, bottom up.

- `Nor.dfy` is the chip as an `array<bv8>` (programming ANDs inside one 256-byte page, with the address counter wrapping
  there; erasing sets a 4 KB sector) and the driver that splits a write at page boundaries.
- `Slots.dfy` reads the bytes as 256-byte entries with their three magic words.
- `Ring.dfy` specifies the storage operations on a ring of slots and proves that guarded runs of them are a first-in
  first-out queue that drops its sixteen oldest entries when it is full. The number of sectors is a parameter, at least 2.
- `LapGuard.dfy` says exactly when the guard is needed, and that it can be broken.
- `Recovery.dfy` describes the layouts of the flash that guarded runs and power losses produce (`Laid`), shows that every
  operation keeps them, and says which of them the boot scan restores (`Survives`): after a crash between operations, in
  the middle of the overwrite of a magic word, and in the middle of an append. `LapRecovery.dfy` has a run that the scan
  does not restore. `AtLeastOnce.dfy` puts these together over whole lives of the cache, any number of laps long.
- `FlashStorage.dfy` is the storage layer as a class over the chip. Each of its methods is proved to be the ring operation
  of the same name.
- `CacheLoop.dfy` specifies one turn of `cache_task`, `CacheTask.dfy` is the task as a class over the storage layer.
  `CacheTurns.dfy` says when each output occurs and with what, and that every report of every run is exact;
  `CacheRuns.dfy` proves conservation, the overflow ledger and the backfill rate over whole runs.

**Modbus.** `ModbusCrc.dfy` has the bitwise CRC loop and the residue theorem (section 6.2.2 of the MODBUS over Serial
Line Specification V1.02). `CrcBits.dfy`, `CrcStep.dfy`, `ShiftRegister.dfy` and `CrcDetection.dfy` show that the CRC is
a linear shift register over the bits of the frame, and from that what errors it detects; `CrcPolynomial.dfy` shows that
it is division by x^16 + x^15 + x^2 + 1, in terms of neither the register nor its steps. `Frames.dfy` has the frames
(section 6.3 of the MODBUS Application Protocol Specification V1.1b3), `ModbusMaster.dfy` the master over a serial line
that delivers chunks of bytes, `Exchange.dfy` what it accepts and what a conformant slave's answers turn into, and
`Slave.dfy` the round trip with slaves that answer the frames that they are sent from registers of their own.

**The connection.** `Connection.dfy` is the state machine task as micro-steps, interleaved with the WiFi and MQTT
handlers that post to its bounded queue. `Trips.dfy` says where it goes from each place where it waits or dispatches, by
what it received, in every interleaving. `StateMachine.dfy` is the task as the source writes it, with its loops and calls
and with posts between any two statements; whatever it does is a run of the micro-step machine.

**The device table.** `DeviceManager.dfy` and `PollScheduler.dfy`; `Readings.dfy` says what a poll records for what
arrives on the line; `Types.dfy` holds the shared records.

The world enters as parameters: what a publish, a commit to NVS, a driver start or a client creation returns, what the
clock reads, which chunks of bytes arrive after a request, which bits a power loss leaves. In the cache loop one turn's
worth of it is a `Turn`; in `StateMachine.dfy` it is chosen nondeterministically, and the endless loops are followed for
any finite number of receives and dispatches.

## Where the code does not do what it says

- `flash_storage.h:48` and `README.md:11` say that a full cache overwrites its oldest sector and that every lost entry is
  counted. When the write address starts a sector and more than `MAX - 16` but fewer than `MAX` entries are pending, the
  refill branch (`flash_storage.c:196-199`) erases pending entries and counts none of them. `LapGuard.GuardIsExact` gives
  the exact condition, `LapGuard.GuardIsTight` the exact loss, and `LapGuard.GuardViolationIsReachable` a way there: fill
  the chip, deliver one entry, write one, and fifteen entries are gone; write another, and it is gone too, with the one
  before it (`LapGuard.TwoWritesLost`). The queue theorems are stated under the condition (`Ring.Guard`), which a caller
  can check before the write.
- `README.md:10` promises that a cache that has not overflowed survives a power loss. It does on the first lap of the
  chip. Once the write address has passed the chip's end, erased slots are left only in a partly filled sector, and the
  scan, which looks for the first of them, is right if and only if the write address is at the chip's start, or inside a
  sector and behind the read address (`Recovery.ScanIsExactInRam`; `Recovery.ScanIsExactWhenLaid` for every layout). The
  code never checks this. `LapRecovery.LappedQueueIsLost`: deliver one lap of entries one at a time, store sixteen, lose
  power; the next write erases all sixteen, uncounted, although the cache never held more.
- `modbus_recv_response` means to drop noise before the slave's address and to read a second chunk only if the address
  is missing. It compares the offset with the length that it has just reduced by the offset (`modbus_master.c:72-76`), so
  a good reply behind noise at least as long as the reply is thrown away. `Exchange.ResyncIsExact` says exactly what is
  accepted, `Exchange.NoiseInOneChunk` that a single chunk is accepted if and only if its noise is shorter than its
  frame, and `Exchange.NoiseLosesReply` gives seven bytes of noise that lose a reply.
- The fallback from MQTT_CONN to WIFI_CONN does not drain the event queue (`state_machine.c:194-200`), so RUNNING can be
  entered on a connect event of a client that no longer exists. `Connection.GenuineExactly`: a run has no such entry if
  and only if no connect event heads the queue whenever WIFI_CONN is left. `Connection.StaleComes` says that once it does,
  no interleaving avoids it, and `Connection.StaleIsReachable` that it happens.
- `cache_task.c:184` ignores the result of `flash_storage_write`, so a message of more than 244 bytes that is not
  published is dropped without a trace. `CacheRuns.RefusedExactly`: the messages dropped in a run are exactly these, so
  that none is if and only if every unpublished message fits; `CacheRuns.DroppedMessage` is one of 245 bytes.
- The range check of `w25q64_write` and `w25q64_read` adds address and length in 32 bits (`w25q64.c:147`, `w25q64.c:186`).
  `Nor.RangeCheckIsExact` says which calls it lets through besides those inside the chip, and `Nor.WrappedWriteAccepted`
  is one of two bytes. The storage layer makes no such call.

## Model

| member | source | states |
|---|---|---|
| Nor.ChunkInPage | main/drivers/w25q64.c:155-166 | a page program whose data ends inside its page equals a flat AND of the data into exactly the addressed cells |
| Nor.CrossingChunkWraps | main/drivers/w25q64.c:70-76 | why the write is split: data that passes the end of the page lands on the page's first cells and not on the next page |
| Nor.PouredIsProgrammed | main/drivers/w25q64.c:154-166 | inside the chip, the byte-by-byte meaning of the loop is one flat write |
| Nor.RangeCheckIsExact | main/drivers/w25q64.c:147-152 | the check accepts what is inside the chip and, besides, exactly the calls whose sum passes 2^32 and ends inside |
| Nor.WrappedWriteAccepted | main/drivers/w25q64.c:147-168 | two bytes for the last 32-bit address are accepted and change the last and the first cell of an 8 MB chip |
| Nor.ErasedReadsBack | main/drivers/w25q64.c:133-168 | on erased cells a write followed by a read returns the buffer, and the cells on both sides are untouched |
| Nor.WriteStatus | main/drivers/w25q64.c:137-152 | invalid argument exactly for no buffer; accepted exactly for no bytes, a range inside the chip, or one that passes 2^32 and ends inside; invalid size otherwise |
| Nor.W25q64.PageProgram | main/drivers/w25q64.c:76-103 | the chip ANDs byte by byte with an address counter that wraps in the page |
| Nor.W25q64.EraseSector | main/drivers/w25q64.c:108-131 | any address inside a sector erases that sector and nothing else |
| Nor.W25q64.Write | main/drivers/w25q64.c:133-168 | for every 32-bit address and length the page-splitting loop ANDs each byte into the cell that its address reaches, inside the chip one flat write of the whole buffer; null, empty and refused calls change nothing and return the code's three results |
| Nor.W25q64.Read | main/drivers/w25q64.c:172-225 | the cells that the addresses reach, inside the chip exactly the addressed ones; the results for a null buffer, no bytes and the range check |
| Slots.EncodeDecode | main/storage/flash_storage.c:201-206 | an entry as it is programmed reads back as the same payload and time, with a plausible length |
| Slots.EncodedFields | main/storage/flash_storage.c:201-206 | where the magic, the time, the length and the payload of a written entry are, and that everything else in its page is zero |
| Slots.MagicWords | main/storage/flash_storage.h:18-20 | the three states are the values 0xDEADBEEF, 0xFFFFFFFF and 0 of the little-endian word at the start of a slot |
| Slots.ProgramSlot | main/storage/flash_storage.c:209 | 256 programmed bytes change one slot, to the AND of old and new |
| Slots.ProgramMagic | main/storage/flash_storage.c:62-63 | programming the SENT magic zeroes four bytes of one slot, whatever they held |
| Slots.EraseSlots | main/storage/flash_storage.c:178-179 | erasing a sector blanks its sixteen slots and no other |
| Ring.AppendRefines | main/storage/flash_storage.c:159-224 | under the lap guard a write lands on an erased slot, keeps the ring invariant, and appends exactly the given entry to the queue, after dropping exactly the sixteen oldest slots if and only if the ring is full |
| Ring.ReadRefines | main/storage/flash_storage.c:104-150 | a read heals and skips until it delivers the oldest decodable entry that fits, unchanged and still queued; it fails exactly when none is left |
| Ring.ReadHeals | main/storage/flash_storage.c:113-146 | for every ring, damaged or lapped, and every buffer size: of the slots that a read passes, those it cannot decode get the SENT magic and keep their other bytes, the others are too long and unchanged; no slot else changes, nor the write address; something is delivered exactly if something is left pending, and its head decodes and fits |
| Ring.MarkRefines | main/storage/flash_storage.c:54-75 | after a successful read, marking removes exactly the entry that was delivered |
| Ring.HeadDropped | main/storage/flash_storage.c:131-145 | moving the read address on, with or without the overwrite, drops the oldest slot of the window and leaves the others as they were |
| Ring.NothingTooLong | main/app/cache_task.c:210 | with the 244-byte buffer of the cache no queued entry is skipped for its length |
| Ring.AppendMarked | main/storage/flash_storage.c:159-224 | in guarded runs the VALID magic marks exactly the pending slots: kept by a write |
| Ring.MarkMarked | main/storage/flash_storage.c:54-75 | the same, kept by marking |
| Ring.ReadMarked | main/storage/flash_storage.c:104-150 | the same, kept by a read and its healing |
| LapGuard.GuardIsTight | main/storage/flash_storage.c:196-199 | outside the guard one write blanks exactly `n - (MAX - 16)` pending slots, the oldest, although the ring is not full and nothing is counted |
| LapGuard.GuardIsExact | main/storage/flash_storage.c:176-199 | on every ring that guarded running reaches, a write is the queue step if and only if the guard holds |
| LapGuard.WriteOnlyRuns | main/storage/flash_storage.c:159-224 | from an aligned empty ring, writing alone never breaks the guard, for any number of entries, and the queue is always the newest entries in order |
| LapGuard.TwoWritesLost | main/storage/flash_storage.c:176-219 | one entry short of full and outside the guard, after two writes neither is queued, fifteen older entries are gone too, and the variables contradict each other |
| LapGuard.GuardViolationIsReachable | main/storage/flash_storage.c:176-199 | for every capacity: fill an erased chip, deliver one entry, write one more, and fifteen undelivered entries are gone; write another, and both new ones are |
| Recovery.ScanIsExact | main/storage/flash_storage.c:267-312 | for any ring with pending entries and true magic words, the scan restores the addresses and the count if and only if the first blank slot is the one behind the newest entry |
| Recovery.ScanIsExactWhenLaid | main/storage/flash_storage.c:267-312 | in every layout that running produces, with entries pending: restored if and only if the queue survives, which takes the variables and the magic word at the write address to check |
| Recovery.ScanIsExactInRam | main/storage/flash_storage.c:267-312 | the same from the variables alone: always on the first lap; later if and only if the write address is at the start, or inside a sector and behind the read address |
| Recovery.ScanOfEmpty | main/storage/flash_storage.c:308-312 | with nothing pending, the scan finds nothing pending, in every layout |
| Recovery.SurvivesScan | main/storage/flash_storage.c:267-312 | where the queue survives, the scan yields the same window in a sound layout, even where it moves the addresses of an empty ring |
| Recovery.AppendLaid | main/storage/flash_storage.c:159-224 | a guarded write keeps the layout, across the chip's end and with eviction, and extends a queue that is not full |
| Recovery.ReadLaid | main/storage/flash_storage.c:104-150 | a read, with all its healing, keeps the layout and the queue and delivers the queue's head |
| Recovery.MarkLaid | main/storage/flash_storage.c:54-75 | marking keeps the layout |
| Recovery.TornMarkRecovers | main/storage/flash_storage.c:61-72 | where the queue survives, whatever subset of bits a torn overwrite cleared: restored without its head, or with it exactly if the magic still reads VALID |
| Recovery.TornKinds | main/storage/flash_storage.c:202-209 | what each byte prefix of an entry looks like: blank, not counted, valid with an impossible length, or valid with its own length |
| Recovery.TornPayload | main/storage/flash_storage.c:119 | from ten bytes on the code takes a torn entry for a whole one, and it is whole exactly if the missing bytes are 0xFF |
| Recovery.DeadTearPending | main/storage/flash_storage.c:283-299 | one to three bytes behind pending entries leave a count that is one short: the rebuilt state is not a queue |
| Recovery.TornAppendIsExact | main/storage/flash_storage.c:176-219 | after a crash in a guarded append at any byte, where the queue survives before and after it: a sound queue with or without the new entry is rebuilt if and only if the tear is one of the listed clean ones |
| Recovery.CleanTearRecovers | main/storage/flash_storage.c:267-312 | which of the two queues a clean tear leaves, in a sound layout again |
| Recovery.FirstLapSurvives | main/storage/flash_storage.c:267-312 | on the first lap the guard holds and the queue survives before, in and behind every write, a last one that fills the chip included |
| LapRecovery.WholeLap | main/app/cache_task.c:208-235 | a lap of entries, each delivered before the next is stored, brings the write address back to the start with no slot erased |
| LapRecovery.LappedQueueIsLost | main/storage/flash_storage.c:196-199 | for every capacity: after such a lap and sixteen stores, the scan puts the write address at the start, and the next write erases all sixteen |
| AtLeastOnce.StepSound | main/app/cache_task.c:208-235 | every store that overflows nothing, delivery, failed delivery, and every power loss that the queue survives, between operations or in a store, healing or marking, keeps the broker's log and the queue in step |
| AtLeastOnce.AtLeastOnce | main/app/cache_task.c:208-235 | over any life of these from an erased chip, however many laps: every complete entry was accepted by the broker or is still queued, the broker sees entries in order, and each power loss costs at most one repetition, of the head |
| FlashStorage.Storage.constructor | main/storage/flash_storage.c:15-24 | power-on over a chip and an NVS that kept their contents |
| FlashStorage.Storage.OverflowPersist | main/storage/flash_storage.c:81-92 | NVS takes the count if the commit succeeds and keeps the old one otherwise |
| FlashStorage.Storage.TakeOverflow | main/storage/flash_storage.c:334-348 | hands out the count once and zeroes it |
| FlashStorage.Storage.GivebackOverflow | main/storage/flash_storage.c:36-48 | adds a count back, modulo 2^32 |
| FlashStorage.Storage.PendingCount | main/storage/flash_storage.c:324-327 | the number of slots in the window |
| FlashStorage.Storage.MarkSent | main/storage/flash_storage.c:50-75 | after a successful read, as its note demands: on bytes and addresses, the ring operation; inside a guarded run it drops the head of the window |
| FlashStorage.Storage.ReadOldest | main/storage/flash_storage.c:104-150 | the healing loop ends, in every state, and bytes, addresses and result are those of the ring operation; Ring.ReadHeals says which slots it overwrites and Ring.ReadRefines what it delivers |
| FlashStorage.Storage.EvictSector | main/storage/flash_storage.c:176-194 | a full ring loses the write address's sector and sixteen counts, and the counter in RAM and NVS gains sixteen |
| FlashStorage.Storage.RefillSector | main/storage/flash_storage.c:196-199 | erases the sector at the write address, pending entries or not |
| FlashStorage.Storage.ProgramEntry | main/storage/flash_storage.c:201-219 | the entry's 256 bytes go to the slot at the write address, by AND |
| FlashStorage.Storage.Write | main/storage/flash_storage.c:159-224 | in every state the ring operation on bytes and addresses, and the counter only for a full ring; refuses payloads over 244 bytes untouched; in a guarded run with room the queue grows by exactly this entry |
| FlashStorage.Storage.ScanLoop | main/storage/flash_storage.c:267-300 | the loop stops at the first blank slot or at the end, knowing the number of VALID slots before it and the first of them |
| FlashStorage.Storage.ScanFlash | main/storage/flash_storage.c:267-312 | the variables become those of the scan specified in Recovery, and the flash is not changed |
| FlashStorage.Storage.Init | main/storage/flash_storage.c:226-318 | the three results, and on success the scan and the count from NVS, zero if there is none |
| CacheLoop.ReadSome | main/storage/flash_storage.c:113-145 | in every state, guarded or not, a successful read comes from a VALID entry of at most 244 bytes, which is the head |
| CacheTask.Task.RouteMessage | main/app/cache_task.c:166-186 | a message is published, or stored after a failed or skipped publish, or refused; a live publish takes the stamp |
| CacheTask.Task.ReportCount | main/app/cache_task.c:116-147 | the count is taken, then reported and stamped if the publish succeeds and given back if it fails; CacheTurns.StepReports says what becomes of it in a turn |
| CacheTask.Task.DetectEdge | main/app/cache_task.c:188-205 | a report exactly on a rising edge of the flag |
| CacheTask.Task.CatchUpOne | main/app/cache_task.c:207-235 | one backfill if online, pending and the gap is past; the entry is marked only after the publish succeeded |
| CacheTask.Task.Iterate | main/app/cache_task.c:163-236 | one turn over the real storage is the specified step, with its outputs in order |
| CacheTask.Task.Loop | main/app/cache_task.c:163-236 | any number of turns over the real storage is a run of the specification |
| CacheTurns.StepRoutes | main/app/cache_task.c:166-186 | one turn in every state: a message is published at once exactly if the turn is online and the publish succeeds, stored exactly if it is not and has at most 244 bytes, and sixteen slots are evicted exactly if it is stored in a full ring |
| CacheTurns.StepReports | main/app/cache_task.c:116-147 | one turn in every state reports exactly if it is a rising edge, the count is not zero and the publish succeeds: the whole count, once, leaving zero; otherwise the count stays; and NVS holds the last commit that succeeded |
| CacheTurns.StepBackfills | main/app/cache_task.c:207-235 | one turn in every state sends from flash exactly if it is online, 1000 ms have passed since the last publish, a read delivers an entry and the publish succeeds: that entry, which is then marked; and a failed publish leaves it |
| CacheTurns.RunReports | main/app/cache_task.c:188-205 | every report of every run, reboots included: after commits that succeed, a turn reports if and only if it is online, the turn before was not or there was a reboot, its publish succeeds, and the slots evicted so far and not reported, modulo 2^32, are not zero; and it reports just these |
| CacheTurns.RunFates | main/app/cache_task.c:166-186 | in every run, guarded or not, the messages published at once and the entries stored are exactly those that the events say, in order |
| CacheRuns.StepBalance | main/app/cache_task.c:163-235 | one guarded turn: the queue before plus what was stored is what left plus the queue after, the message got exactly one fate, and each eviction lost sixteen entries |
| CacheRuns.RunBalance | main/app/cache_task.c:163-235 | the same over any guarded run with reboots that the queue survives, from any sane state, to a sane state |
| CacheRuns.StepCounted | main/app/cache_task.c:116-147 | every turn in every state: the overflow count before plus sixteen for each eviction is what was reported plus the count after, modulo 2^32 |
| CacheRuns.OverflowLedger | main/storage/flash_storage.c:81-92 | the same over every run whose commits succeed, with any reboots at any layout, guarded or not; and the counts in RAM and NVS agree throughout |
| CacheRuns.Conservation | main/app/cache_task.c:163-235 | from an empty queue, guarded and with reboots that the queue survives: each message taken was published live, refused or stored, once and in order; stored entries are, in order, those that left by backfill or eviction followed by those pending; entries lost to eviction are reported plus outstanding, modulo 2^32 |
| CacheRuns.RefusedExactly | main/app/cache_task.c:177-185 | the messages dropped in a run are exactly those not published and over 244 bytes, in order; none is dropped if and only if every unpublished message fits |
| CacheRuns.DroppedMessage | main/app/cache_task.c:184 | a message of 245 bytes taken while offline is gone, and nothing else changes |
| CacheRuns.RunKeeps | main/app/cache_task.c:42-52 | in every run every backfill starts at least 1000 ms after the stamp of the publish before it, live, report or backfill |
| CacheRuns.BackfillRate | main/app/cache_task.c:208-223 | the backfills that start within any T ms are at most T / 1000 + 1 |
| CacheRuns.CatchupSendsOldest | main/app/cache_task.c:208-233 | when all conditions hold, the head of the queue is published and leaves it |
| CacheRuns.OneReportPerEdge | main/app/cache_task.c:194-205 | between two overflow reports there is an offline turn |
| ModbusCrc.ModbusCrc16 | main/protocol/modbus_crc.c:10-29 | the two loops compute the CRC of the first `len` bytes, which CrcPolynomial.CrcCompletes characterises |
| ModbusCrc.Residue | main/protocol/modbus_master.c:87-93 | for every message and two bytes: the whole frame has CRC zero if and only if the bytes are the low and the high byte of the message's CRC |
| CrcDetection.CrcIsFeed | main/protocol/modbus_crc.c:14-27 | the byte loop equals a serial register fed the frame's bits, low bit first |
| CrcDetection.SameOrNot | main/protocol/modbus_crc.c:14-27 | linearity: two frames of one length reach the same register exactly if their difference alone reaches zero |
| CrcDetection.BurstDetected | main/protocol/modbus_crc.c:10-29 | two different frames that differ only within 16 consecutive bits have different CRCs, at any length |
| CrcDetection.OddErrorsDetected | main/protocol/modbus_crc.c:10-29 | so have two frames that differ in an odd number of bits |
| CrcPolynomial.EmptyIffMultiple | main/protocol/modbus_crc.c:16-26 | a register that starts empty is empty after 16 bits or more if and only if the message is a multiple of x^16 + x^15 + x^2 + 1 over two elements |
| CrcPolynomial.StartInverts | main/protocol/modbus_crc.c:12 | starting at 0xFFFF is starting at zero with the first two bytes of the message inverted |
| CrcPolynomial.PassesIffMultiple | main/protocol/modbus_master.c:87-93 | a frame has CRC zero if and only if, with its first sixteen bits inverted, it is a multiple of the polynomial |
| CrcPolynomial.CrcCompletes | main/protocol/modbus_crc.c:10-29 | for every message of two bytes or more: two bytes behind it complete a multiple of the polynomial if and only if they are the low and the high byte of its CRC |
| CrcPolynomial.FrameBitsAt | main/protocol/modbus_crc.c:14-27 | bits 8k to 8k+7 of a message are those of byte k |
| CrcPolynomial.ByteBitsListed | main/protocol/modbus_crc.c:17-26 | a byte's bits, least significant first |
| CrcPolynomial.KnownRequest | main/protocol/modbus_crc.c:10-29 | the CRC of 01 03 00 00 00 01 is 0x0A84 |
| Frames.WithCrcPasses | main/protocol/modbus_master.c:33-35 | the byte order of the sender is the one that the receiver's zero test accepts |
| Frames.RequestCarries | main/protocol/modbus_master.c:22-35 | the eight bytes hold address, function 3, register and count with high bytes first, a slave takes them back out, and the CRC passes |
| Frames.PassingLength | main/protocol/modbus_master.c:88-96 | no frame of one byte or none passes by chance |
| ModbusMaster.Rs485.Receive | main/drivers/rs485.c:74-79 | a chunk overwrites the start of the buffer and leaves the rest stale |
| ModbusMaster.DropNoise | main/protocol/modbus_master.c:69-75 | the search and the move leave exactly the bytes from the first address on |
| ModbusMaster.RecvResponse | main/protocol/modbus_master.c:52-97 | for all chunks, result, length and buffer contents are those of the specification over at most two chunks |
| ModbusMaster.SendRequest | main/protocol/modbus_master.c:22-42 | one request frame goes out, and chunks left over from before are discarded |
| ModbusMaster.ReadRegister | main/protocol/modbus_master.c:155-178 | the exception, length and stale-buffer cases: the register comes from the accepted frame only |
| ModbusMaster.ReadDevice | main/protocol/modbus_master.c:138-196 | requests, error and record are those of reading entry after entry up to the first failure; each frame that goes out asks the slave of its entry for the register of its entry, and for one |
| Exchange.ResyncIsExact | main/protocol/modbus_master.c:57-96 | a frame is accepted if and only if its CRC passes and it is the part from the first address on of the first chunk and more than half of it, or of the second chunk when the first was not taken |
| Exchange.FoundExactly | main/protocol/modbus_master.c:52-178 | what a request ends in: a timeout if and only if the line is silent, or silent after a discarded chunk; offline if and only if an exception is accepted; the register w if and only if an accepted frame without the exception bit is as long as its third byte says and bears w, high byte first; a CRC error otherwise |
| Exchange.AddressPresent | main/protocol/modbus_master.c:78-85 | nothing is accepted unless one of the two chunks holds the address |
| Exchange.NoiseInOneChunk | main/protocol/modbus_master.c:69-76 | a good frame in a single chunk is accepted exactly if less noise than frame precedes it, and times out otherwise |
| Exchange.NoiseLosesReply | main/protocol/modbus_master.c:72-76 | a concrete reply lost to seven bytes of noise |
| Exchange.CorruptedReplyRefused | main/protocol/modbus_master.c:87-93 | a reply hit by a burst of up to 16 bits behind its address is refused |
| Exchange.DeviceRoundTrip | main/protocol/modbus_master.c:138-196 | if every request is answered by a reply, all are sent, and each field holds the raw register of the last entry that names it, others zero |
| Exchange.ExceptionOffline | main/protocol/modbus_master.c:160-167 | an exception response after good replies gives ERR_OFFLINE, no online flag, and no further request |
| Slave.SlaveRoundTrip | main/protocol/modbus_master.c:138-196 | over slaves that answer each frame that they are sent from their own registers: every entry is asked for, and each field holds the register that the last entry naming it maps, with its scale |
| Readings.FailsExactly | main/scheduler/poll_scheduler.c:102-127 | a poll is a failure if and only if one of its requests fails |
| Readings.AnsweredIsReading | main/scheduler/poll_scheduler.c:102-113 | a device whose requests are all answered is recorded online, with those registers, its id, its name and the clock |
| Readings.TableReads | main/scheduler/poll_scheduler.c:22-62 | the whole record of each of the three devices over such slaves: which slave's which register is in which field, in tenths or hundredths |
| Connection.ConnectionSafety | main/app/state_machine.c:123-246 | after every micro-step of every interleaving: online implies a client, at each dispatch online is exactly RUNNING, WIFI_CONN has no client, an MQTT wait loop without a client has no MQTT event queued, `mqtt_app_start` never finds an old client |
| Connection.NextInv | main/app/state_machine.c:123-246 | the invariant behind it is kept by every micro-step and every post, dropped or not |
| Connection.CleanRunsAreGenuine | main/app/state_machine.c:184-200 | if no connect event heads the queue whenever WIFI_CONN is left, RUNNING is only entered on the report of the client that exists |
| Connection.StaleComes | main/app/state_machine.c:169-200 | once WIFI_CONN is left with a connect event at the head, every continuation, with any posts, drops, failed starts and retries, either has received nothing since or went to RUNNING on the event of a client that is gone |
| Connection.GenuineExactly | main/app/state_machine.c:123-215 | every run that is not itself at that wait: all its entries to RUNNING are on reports of the client that existed if and only if no connect event headed the queue whenever WIFI_CONN was left |
| Connection.HeadDecides | main/app/state_machine.c:142-146 | and RUNNING is within reach: if the six steps after leaving WIFI_CONN succeed, the task is on its way there on another client's event exactly if a connect event headed the queue |
| Connection.StaleIsReachable | main/app/state_machine.c:194-200 | some run gets there, by a fallback that does not drain |
| Trips.LegEnds | main/app/state_machine.c:67-246 | from every place where the task dispatches or waits, in every interleaving: the next such place, the state, the client and the handles are those of a table over what was dispatched or found at the head of the queue |
| Trips.WaitEnds | main/app/state_machine.c:135-246 | every continuation of a wait up to the next dispatch, with posts, drops, timeouts and failed restarts: WIFI_CONN ends only with a connection and goes to MQTT_CONN; MQTT_CONN with a connection and goes to RUNNING, or with a WiFi loss and goes to WIFI_CONN without a client; RUNNING with a WiFi loss and goes to WIFI_CONN, or with an MQTT loss and goes to MQTT_CONN, without a client |
| Trips.WifiStartDecides | main/app/state_machine.c:127-132 | WIFI_CONN is waited in if and only if the driver started |
| Trips.RestartsDrained | main/app/state_machine.c:150-156 | WiFi restarts, client retries and the exits of RUNNING come right behind a queue found empty |
| Trips.PostsAreQueued | main/drivers/wifi.c:34-55 | a post appends its event while fewer than ten wait, and is dropped otherwise |
| StateMachine.Gateway.WifiEventHandler | main/drivers/wifi.c:16-63 | a post, once the driver has the queue; dropped if the queue is full |
| StateMachine.Gateway.MqttEventHandler | main/protocol/mqtt_app.c:43-49 | a post, only while the queue handle is set |
| StateMachine.Gateway.ChangeState | main/app/state_machine.c:42-50 | the micro-step that sets the state |
| StateMachine.Gateway.DrainEventQueue | main/app/state_machine.c:60-64 | receives until the queue is empty, while posts may still come in |
| StateMachine.Gateway.MqttAppStop | main/protocol/mqtt_app.c:96-111 | the queue handle is cleared before the client |
| StateMachine.Gateway.MqttAppStart | main/protocol/mqtt_app.c:115-151 | the queue handle is set even if no client can be made |
| StateMachine.Gateway.HandleInit | main/app/state_machine.c:67-121 | a run of the machine from INIT to the next dispatch, of WIFI_CONN or, after a failure of the driver, of INIT |
| StateMachine.Gateway.HandleWifiConn | main/app/state_machine.c:123-166 | a run of the machine from entry to the next dispatch: of MQTT_CONN on a connect event, of the same state if the driver did not start |
| StateMachine.Gateway.HandleMqttConn | main/app/state_machine.c:169-215 | a run of the machine from entry to the next dispatch: of RUNNING on a connect event, of WIFI_CONN on a WiFi loss, of the same state if no client could be made |
| StateMachine.Gateway.HandleRunning | main/app/state_machine.c:218-246 | a run of the machine from entry to the next dispatch, offline and without a client: of WIFI_CONN on a WiFi loss, of MQTT_CONN on an MQTT loss |
| StateMachine.Gateway.StateMachineTask | main/app/state_machine.c:249-259 | the whole task, however long it is followed, is a run of the machine, so that the safety theorem holds of it |
| DeviceManager.ListedInTableOrder | main/manager/device_manager.c:46-52 | the list is the table read at increasing places, all and only those of devices with an id that are online |
| DeviceManager.Updated | main/manager/device_manager.c:23-31 | of all records exactly the first with the id is replaced |
| DeviceManager.FirstOfListed | main/manager/device_manager.c:46-52 | what is copied is the longest beginning of the list that fits, and with room for the whole table it is the whole list |
| DeviceManager.Manager.Init | main/manager/device_manager.c:91-114 | three devices, offline, and five empty places |
| DeviceManager.Manager.Update | main/manager/device_manager.c:14-33 | replaces the first record with the id; an unknown id, a null record, or no mutex, changes nothing |
| DeviceManager.Manager.GetAll | main/manager/device_manager.c:37-57 | the first `max_count` listed devices, in order, and nothing written behind them |
| PollScheduler.HistoryDecides | main/scheduler/poll_scheduler.c:107-159 | after any outcomes, the 8-bit counter, the snapshot and the table record are what the unbounded history says |
| PollScheduler.OnlineIsHistory | main/scheduler/poll_scheduler.c:107-159 | a device is online exactly if it was ever read and has failed at most twice since, although the counter wraps; its readings are those of the last success; never read, it keeps its first record for two polls and then has id and name only |
| PollScheduler.Scheduler.Count | main/scheduler/poll_scheduler.c:107-159 | one outcome changes one device's variables and record and no other's |
| PollScheduler.Scheduler.PollDevice | main/scheduler/poll_scheduler.c:100-159 | the outcome recorded is the one that reading the device over the line gives |
| PollScheduler.Scheduler.PollCycle | main/scheduler/poll_scheduler.c:95-162 | each device's history grows by exactly the outcome of reading it from what the earlier devices left on the line |
| PollScheduler.Scheduler.TableIsHistory | main/scheduler/poll_scheduler.c:107-159 | at every cycle boundary the table lists exactly the devices whose history says so, with the readings of their last success, and what it holds of a device never read |

## Left out

- SPI, UART and GPIO transactions, BUSY polling, `malloc` failure, task creation and deletion: foreign calls; the model keeps what they do to the flash and the line.
- Mutex timeouts: storage calls are atomic, as after the start only `cache_task` makes them.
- A read error in the middle of the scan (`flash_storage.c:276-281`): the driver fails there only for lack of memory.
- Nor.W25q64.Read: lengths within four of 2^32, for which the source allocates too small a buffer, are excluded.
- FlashStorage.Storage.MarkSent: something is pending, as the source's note demands of the caller (`flash_storage.c:52`); without it the source counts below zero.
- Interrupted sector erases: a sector of half-erased bytes is not modelled.
- AtLeastOnce.AtLeastOnce: stores that overflow nothing, clean tears, and power losses that the queue survives; the others are lost by the code (`Recovery.ScanIsExactWhenLaid`, `Recovery.TornAppendIsExact`, `LapRecovery.LappedQueueIsLost`).
- CacheRuns.Conservation: under the lap guard, and with reboots only where the queue survives them, for the same reason; the ledger needs neither (`CacheRuns.OverflowLedger`).
- A power loss between `take_overflow` and the report, or between an erase and its commit, which loses the count.
- Liveness: the state machine can drop a WIFI_DISCONNECTED in a drain and keep retrying MQTT_CONN, and live traffic can keep backfills waiting.
- The read of the queue handle and the send in the MQTT handler are one step, as are the creation and the start of a client; data races on the handles are not modelled.
- Message texts: topics, JSON, the report's running id. A payload is the string's bytes before its terminator.
- Floating point: a field keeps the raw register and the scale, not their product.
- The function code of an accepted frame, and whether its byte count is two: the code checks neither (`Exchange.FoundExactly`), so the round trips are stated for conformant frames.
- Start and stop of `cache_task` and of the poll task, the poll interval, `config_manager.c`, `app_task.c`, and WiFi setup: environment.
- `device_manager_check_offline`: it has no caller.
