# Battery monitor firmware: verified model

A Dafny model of the safety- and durability-critical parts of the ESP32 battery and solar monitor, with
proofs of what they guarantee over every call, run and interleaving. `dafny verify dfyconfig.toml` checks
all of it.

Each component is modelled twice. A class follows the C++ object: its fields, its loops, its arrays updated
in place. Beside it, functions on a value of those fields (`View()`) say what one call does; every method is
proved equal to its function. Runs are folds of these functions over arbitrary lists of events, and the
theorems are about all such runs. What the outside does (an I2C write that reports failure, an NVS write cut
short by power loss, the outcome of an HTTP POST, the clock, random numbers) is a parameter of the call, so
the theorems quantify over it. Where tasks share state without holding one lock throughout, the calls are cut
into atomic steps and interleaved, and a lemma shows that the undisturbed steps are the method.

| files | component |
|---|---|
| `RelayDriver.dfy`, `RelayBarrier.dfy`, `RelayContainment.dfy` | relay driver, its emergency barrier as interleaved steps, and where the barrier ends |
| `AlarmModel.dfy`, `AlarmRegistry.dfy`, `AlarmProperties.dfy`, `AlarmHistory.dfy` | alarm registry and its NVS record |
| `JournalModel.dfy`, `JournalRecord.dfy`, `Journal.dfy`, `JournalProperties.dfy` | transaction journal |
| `Commands.dfy`, `CommandGate.dfy`, `OtaHandler.dfy`, `OtaProperties.dfy`, `OtaPublications.dfy`, `ConfigReceiver.dfy`, `ConfigProperties.dfy`, `ConfigInterleaving.dfy`, `Calibration.dfy` | command handlers |
| `BatteryModel.dfy`, `BatteryComm.dfy`, `BatteryProperties.dfy`, `BatteryPolling.dfy` | BMS detection and the mismatch interlock |
| `LinearRegister.dfy`, `Modbus.dfy`, `ModbusRtu.dfy`, `ModbusSession.dfy` | CRC-16 and the Modbus RTU client |
| `RegisterField.dfy`, `Crc32.dfy` | CRC-32 |
| `EventRing.dfy`, `Rs485Console.dfy`, `TrimmedMean.dfy`, `AdcVoltage.dfy`, `AdcTicks.dfy`, `Ina219.dfy`, `Backoff.dfy` | the algorithmic kernels |

Arithmetic is exact: milliseconds wrap modulo 2^32, the backoff doubles in 16 bits, attempt counters in 8,
checksums are bit-vectors. Physical quantities are real numbers.

## Where the code and its description differ

The model follows the code. The differences are stated as theorems:

- The journal header promises records that survive a reboot. The checksum is computed over the payload when
  saving and over the payload and its zero padding when loading. `JournalProperties.ReloadedIff` shows that
  the two agree exactly when the stored checksum is 0xFFFFFFFF; any other record is forgotten at the next
  boot. The proof computes in the field of the CRC-32 polynomial (`Crc32.PaddingInvisibleIff`).
- So a redelivered OTA command starts its job again after almost any reboot: exactly if the loader finds no
  committed record of it with that checksum (`OtaProperties.RebootRestartsIff`, for every point a journal call
  can be cut at; a plain reboot and a cut terminal update are its two plainest cases).
- The config receiver records a command after applying it, and the relay executor may record its outcome first.
  The receiver is then told that its record is durable and publishes a text which the journal does not hold and no
  redelivery repeats. `ConfigInterleaving.PublishedIsRecordedIff` and `ConfigInterleaving.PublishedIsReplayedIff`
  say exactly when, `ConfigInterleaving.TerminalOvertakesQueued` that it happens; the text can even be published
  with no committed record behind it (`ConfigInterleaving.PublishedWithoutRecord`).
- A config command delivered again after a reboot is applied again just as an OTA job restarts
  (`ConfigInterleaving.RebootAppliesAgainIff`).
- The loader restarts the ring behind the highest slot it recovered, so the newest entry need not be the last
  to go (`JournalProperties.RingAfterReload`).
- The emergency barrier holds for force calls that got the mutex. The acknowledged 0xFF of a starved call holds
  exactly in the states that `RelayContainment.BreaksUnlessContained` describes; outside them a wedged writer,
  or its late commit, energises a relay with the latch set. Recovery can leave a stale known shadow
  (`RelayDriver.RecoverKeepsAgreementIff`).
- The refusal on an unknown shadow is made outside the mutex. `RelayContainment.WritesLateIff` says exactly when
  a writer still gets through, and `RelayContainment.UnknownShadowDoesNotStopLateWriter` what it does,
  from a state that `RelayContainment.LateWriterIsReachable` reaches from boot.
- "Two consecutive successes" to lock a battery protocol may be of two different clients
  (`BatteryProperties.LockClientIff`), and a reconfiguration resets neither them nor the probe index
  (`BatteryProperties.LockedAtSecondHit`, `BatteryProperties.ReconfigureSkipsClientsIff`).
- The alarm loader reads a longer record through a shorter buffer. If the library returns nothing for that, no
  saved alarm survives a reboot (`AlarmProperties.SavedTableBootsIff`).
- The voltage filter is meant to see plausible readings only; it is fed the initial zero first exactly as
  `AdcTicks.FirstSampleZeroIff` says.
- The reconnect delay does not grow to a minute: it wraps in 16 bits and ends at zero, where no jitter is left
  (`BackoffProperties.AsIntendedIff`, `BackoffProperties.JitterGoneIff`).
- A refused `calibration.update` may already be in use in part (`CalibrationModel.RefusedChangesNothingIff`).
- Acknowledging revives a cleared alarm (`AlarmProperties.AcknowledgeRevivesIff`), an OTA target mismatch is
  rejected twice (`OtaProperties.Accounting`), and a report into a full event ring can make the flusher consume
  an event it never sent (`RingInterleaving.OverflowConsumesUnsent`; when, `RingInterleaving.ConsumedIsPostedIff`).
- A raise that repeats code, severity and message is meant to touch RAM only. It does exactly if the message
  fits its field; a longer one is written to flash every time (`AlarmHistory.RepeatedRaiseSettlesIff`).
- The pause between attempts to send an event does not stay at 45 s: failures are counted in eight bits, and
  the 256th in a row brings it back to 5 s (`RingInterleaving.FailsAreUnanswered`).

## Model

| member | source | states |
|---|---|---|
| `RelayDriver.RelayExpanderDriver.constructor` | firmware/Drivers/RelayExpanderDriver.h:131-138 | a new driver is unavailable, its latch set and its shadow 0xFF |
| `RelayDriver.RelayExpanderDriver.WriteOutput` | firmware/Drivers/RelayExpanderDriver.cpp:244-255 | one bus write: reported success puts the value in the register, reported failure leaves it old or new |
| `RelayDriver.RelayExpanderDriver.Begin` | firmware/Drivers/RelayExpanderDriver.cpp:39-83 | boot writes 0xFF and reads it back; which fields move on each of the four failing paths and on success |
| `RelayDriver.BootKnowsTheBank` | firmware/Drivers/RelayExpanderDriver.cpp:39-83 | the driver is available exactly when address, write and read-back were good, and then shadow, register and 0xFF agree; the latch is untouched |
| `RelayDriver.RelayExpanderDriver.SetChannelUnlocked` | firmware/Drivers/RelayExpanderDriver.cpp:126-149 | the next byte is committed to the shadow only after the write was acknowledged, otherwise the shadow is marked unknown |
| `RelayDriver.RelayExpanderDriver.SetChannel` | firmware/Drivers/RelayExpanderDriver.cpp:85-121 | every refusal (unavailable, bad channel, unknown shadow, no lock, latched ON) changes nothing; otherwise as above |
| `RelayDriver.NextIsOneChannel` | firmware/Drivers/RelayExpanderDriver.cpp:131-137 | the byte written switches the asked channel and no other |
| `RelayDriver.SetChannelSwitchesOneRelay` | firmware/Drivers/RelayExpanderDriver.cpp:85-149 | from an agreeing bank a successful call changes one relay in the real register, a refused call none, and agreement is kept |
| `RelayDriver.RelayExpanderDriver.AttemptAllOff` | firmware/Drivers/RelayExpanderDriver.cpp:160-168 | one 0xFF write: acknowledged makes the shadow known and off, failed makes it unknown |
| `RelayDriver.RelayExpanderDriver.ForceSafetyAllOff` | firmware/Drivers/RelayExpanderDriver.cpp:156-184 | the latch is set first and whatever happens, then the 0xFF attempt |
| `RelayDriver.RelayExpanderDriver.ClearSafetyLatch` | firmware/Drivers/RelayExpanderDriver.cpp:188-191 | clears the latch and nothing else |
| `RelayDriver.RelayExpanderDriver.AllOff` | firmware/Drivers/RelayExpanderDriver.cpp:199-223 | the 0xFF attempt without the latch |
| `RelayDriver.RelayExpanderDriver.RecoverWithAllOff` | firmware/Drivers/RelayExpanderDriver.cpp:225-242 | true only for an acknowledged write read back as 0xFF; on any other outcome the shadow fields keep their values |
| `RelayDriver.RelayExpanderDriver.ReadState` | firmware/Drivers/RelayExpanderDriver.cpp:193-197 | 0xFF when unavailable or unknown, else the shadow |
| `RelayDriver.RecoverKeepsAgreementIff` | firmware/Drivers/RelayExpanderDriver.cpp:225-242 | recovery keeps shadow and register in agreement exactly when it was called with an unknown shadow, succeeded, did not reach the register, or the shadow was already 0xFF |
| `RelayDriver.RecoverCanLeaveStaleShadow` | firmware/Drivers/RelayExpanderDriver.cpp:232-239 | a bank on which an acknowledged write with a failed read-back leaves a known shadow that is wrong |
| `RelayDriver.RecoveryAnswersIff` | firmware/Drivers/RelayExpanderDriver.cpp:225-242 | recovery answers true exactly for an acknowledged write read back as 0xFF under the lock, and then register and shadow are 0xFF and the shadow known; otherwise the shadow fields stand and the register is as before or off |
| `RelayDriver.SetChannelAnswersIff` | firmware/Drivers/RelayExpanderDriver.cpp:85-149 | a call to switch answers true exactly when no refusal applies and the write was acknowledged; a failed one has marked the shadow unknown |
| `RelayDriver.ForceLatchesAndIsolates` | firmware/Drivers/RelayExpanderDriver.cpp:156-223 | a force call leaves the latch set whatever its write did, and the bank off and known exactly as far as the write was acknowledged; the plain all-off is the same without the latch |
| `RelayBarrier.ExclusionRun` | firmware/Drivers/RelayExpanderDriver.cpp:106-119 | over every interleaving at most one task is between taking and giving the write mutex |
| `RelayBarrier.EmergencyBarrier` | firmware/Drivers/RelayExpanderDriver.cpp:85-191 | THE BARRIER: after any interleaving, once a write by a force call that holds the mutex is acknowledged, every later interleaving without a latch clear keeps the register 0xFF |
| `RelayBarrier.ForceCallIsABarrier` | firmware/Drivers/RelayExpanderDriver.h:42-49 | the same for a whole force call whose steps are interleaved with those of any other tasks |
| `RelayBarrier.BootsIsolated` | firmware/Drivers/RelayExpanderDriver.h:36-41 | from boot, with the latch never cleared, no interleaving of any calls energises a relay |
| `RelayBarrier.StarvedFallbackIsNoBarrier` | firmware/Drivers/RelayExpanderDriver.cpp:169-183 | an eleven-step interleaving in which the unlocked fallback is acknowledged, the latch is set, and a wedged writer then energises channel 0 |
| `RelayBarrier.CoherentStep` | firmware/Drivers/RelayExpanderDriver.cpp:126-149 | every disciplined step keeps shadow and register equal whenever the mutex is free and the shadow known, and keeps what the holder's position promises |
| `RelayBarrier.ShadowAgreesWithHardware` | firmware/Drivers/RelayExpanderDriver.cpp:126-242 | SHADOW AGREEMENT over every run without starved fallbacks and in which recovery writes only while the shadow is unknown |
| `RelayBarrier.SoloRunIsSetChannel` | firmware/Drivers/RelayExpanderDriver.cpp:85-149 | the interleaved steps of one undisturbed task are the method SetChannel |
| `RelayBarrier.SoloRunIsForce` | firmware/Drivers/RelayExpanderDriver.cpp:156-184 | the same for ForceSafetyAllOff |
| `RelayBarrier.SoloRunIsRecover` | firmware/Drivers/RelayExpanderDriver.cpp:225-242 | the same for RecoverWithAllOff |
| `RelayBarrier.RecoveryIsTruthful` | firmware/Drivers/RelayExpanderDriver.cpp:225-242 | over every interleaving from boot, starved calls included: a task goes on to report a verified recovery exactly by reading 0xFF back, and the register is 0xFF at that read |
| `RelayBarrier.VerifiedMeansOff` | firmware/Drivers/RelayExpanderDriver.cpp:232-241 | and it still is for as long as that recovery is under way, whatever other tasks do |
| `RelayContainment.ContainedStep` | firmware/Drivers/RelayExpanderDriver.cpp:85-242 | a contained state stays contained and off through any action of any task that is not a latch clear |
| `RelayContainment.BreaksUnlessContained` | firmware/Drivers/RelayExpanderDriver.cpp:85-242 | THE LIMIT: from any state of the interleaved system with the latch set, the register 0xFF and some task outside the mutex, some interleaving without a latch clear energises a relay exactly if the state is not contained: somebody is about to write or commit a byte with a relay on, or the shadow is stale and somebody can still send it |
| `RelayContainment.StarvedFallbackHoldsIff` | firmware/Drivers/RelayExpanderDriver.cpp:169-183 | so the acknowledged 0xFF of a starved force call holds exactly in a contained state, after any run from boot |
| `RelayContainment.StarvedCommitIsStale` | firmware/Drivers/RelayExpanderDriver.cpp:138-180 | a holder whose byte was acknowledged before a starved 0xFF and committed after it leaves that byte as the known shadow |
| `RelayContainment.WritesLateIff` | firmware/Drivers/RelayExpanderDriver.cpp:93-149 | after a failure has marked the shadow unknown, some interleaving brings a setChannel to the bus before it is known again exactly if one had passed the refusal and is not kept out until then |
| `RelayContainment.FailureLetsWriterThroughIff` | firmware/Drivers/RelayExpanderDriver.cpp:106-149 | for a failure of the task holding the mutex: exactly if some task waits for the mutex in setChannel |
| `RelayContainment.LateOffWrite` | firmware/Drivers/RelayExpanderDriver.cpp:126-149 | what it writes: every relay of the stale shadow on again, but the one switched off, while the shadow counts as unknown |
| `RelayContainment.UnknownShadowDoesNotStopLateWriter` | firmware/Drivers/RelayExpanderDriver.cpp:93-149 | a switch-off that reached the register but was reported failed is undone by a call for another channel that was already waiting |
| `RelayContainment.LateWriterIsReachable` | firmware/Drivers/RelayExpanderDriver.cpp:85-149 | a run from boot reaches such a state: relay 0 on, and a call for channel 1 waiting for the mutex |
| `AlarmRegistry.AlarmRegistry.constructor` | firmware/Services/AlarmRegistry.cpp:137-169 | boot: empty table, then whatever the flash yields |
| `AlarmRegistry.AlarmRegistry.FindIdx` | firmware/Services/AlarmRegistry.cpp:175-181 | the first slot with the code, or 0xFF |
| `AlarmRegistry.AlarmRegistry.FindOldestCleared` | firmware/Services/AlarmRegistry.cpp:250-262 | the scan computes the first entry least in (clearedAt, raisedAt) among the evictable ones |
| `AlarmRegistry.AlarmRegistry.Evict` | firmware/Services/AlarmRegistry.cpp:264-265 | shifting down removes exactly one entry and keeps the order of the rest |
| `AlarmRegistry.AlarmRegistry.RaiseTracked` | firmware/Services/AlarmRegistry.cpp:197-203 | the locked entry: refused without the lock or the code, else one raise |
| `AlarmRegistry.AlarmRegistry.RaiseNew` | firmware/Services/AlarmRegistry.cpp:240-327 | a new code: appended, admitted by eviction, or rejected with only the overflow counter moving |
| `AlarmRegistry.AlarmRegistry.RefreshAt` | firmware/Services/AlarmRegistry.cpp:328-374 | an existing code: reactivation, escalation, rewording or a mere refresh, and which of them is persisted |
| `AlarmRegistry.AlarmRegistry.Clear` | firmware/Services/AlarmRegistry.cpp:377-387 | clearing stamps and persists one entry |
| `AlarmRegistry.AlarmRegistry.ClearIfActive` | firmware/Services/AlarmRegistry.cpp:389-404 | clears and reports true exactly for a live entry |
| `AlarmRegistry.AlarmRegistry.Acknowledge` | firmware/Services/AlarmRegistry.cpp:406-416 | acknowledges any entry under the code, cleared ones included, and persists |
| `AlarmRegistry.AlarmRegistry.AcknowledgeAll` | firmware/Services/AlarmRegistry.cpp:418-427 | acknowledges the active entries only, in one save |
| `AlarmRegistry.AlarmRegistry.SaveToNvs` | firmware/Services/AlarmRegistry.cpp:568-634 | one record under one key, read back and compared before dirty and generation are committed |
| `AlarmRegistry.AlarmRegistry.LoadFromNvs` | firmware/Services/AlarmRegistry.cpp:642-730 | the single record, else the legacy pair, else nothing; a corrupt record leaves the table empty |
| `AlarmProperties.RaiseKeepsLiveAlarms` | firmware/Services/AlarmRegistry.cpp:236-375 | no raise loses an active or acknowledged alarm, changes its lifecycle or lowers its severity, and the table stays within 24 entries |
| `AlarmProperties.AcceptedRaiseIsLive` | firmware/Services/AlarmRegistry.cpp:236-375 | an accepted raise leaves a live alarm under its code, at least as severe as asked |
| `AlarmProperties.FullTableEvictsExactlyTheVictim` | firmware/Services/AlarmRegistry.cpp:242-286 | a full table rejects exactly when nothing is evictable; otherwise the one victim goes and every survivor keeps its place in the order |
| `AlarmProperties.UnevictableCleared` | firmware/Services/AlarmRegistry.cpp:250-262 | a cleared entry is passed over exactly when both its stamps are all ones |
| `AlarmProperties.RaiseKeepsCodesDistinctIff` | firmware/Services/AlarmRegistry.cpp:239-298 | codes stay pairwise distinct exactly when the code fits 31 characters or its clipped form is not held by a survivor |
| `AlarmProperties.SavedTableReadsBack` | firmware/Services/AlarmRegistry.cpp:588-601 | building a record and reading it gives the table back |
| `AlarmProperties.SaveIsAllOrNothing` | firmware/Services/AlarmRegistry.cpp:603-633 | a verified save is durable and clean; a failed one leaves the old or the new record whole |
| `AlarmProperties.BootShowsTheFlashIff` | firmware/Services/AlarmRegistry.cpp:642-730 | what a boot shows for every outcome of opening, buffering and of a header read shorter than the record: the record, the legacy pair or nothing; and when its clean mark is the truth |
| `AlarmProperties.SavedTableBootsIff` | firmware/Services/AlarmRegistry.cpp:649-680 | a saved table comes back after a reboot exactly if `getBytes` hands out a prefix of a longer record, or the table is empty |
| `AlarmProperties.EmptyFlashBootsSound` | firmware/Services/AlarmRegistry.cpp:642-698 | the first boot, on empty flash, establishes the registry invariant |
| `AlarmProperties.ApplyKeepsInvariant` | firmware/Services/AlarmRegistry.cpp:236-427 | each call, failing saves and power cycles included, keeps the registry invariant |
| `AlarmProperties.RunKeepsInvariant` | firmware/Services/AlarmRegistry.cpp:236-730 | CRASH CONSISTENCY over whole runs: distinct codes, at most 24 entries, and flash equal to RAM up to refresh times whenever not dirty |
| `AlarmProperties.CrashShowsOldOrNew` | firmware/Services/AlarmRegistry.cpp:568-634 | power lost anywhere inside a call shows, at the next boot, the flash before the call or the complete table after it |
| `AlarmProperties.LiveAlarmSurvivesRun` | firmware/Services/AlarmRegistry.cpp:236-427 | a live alarm is live, at no lower severity, after any run that does not clear it and whose power cycles find it live in flash, as those of a clean registry do |
| `AlarmProperties.FlashIsLastSaved` | firmware/Services/AlarmRegistry.cpp:568-634 | over any run of calls, failing saves and power cycles the flash holds the table of the last save whose write reached it |
| `AlarmProperties.PowerCycleShowsLastSaved` | firmware/Services/AlarmRegistry.cpp:568-730 | so a power cycle, of a dirty registry too, loses exactly what changed since that save, and an alarm is live after it exactly if it was live then |
| `AlarmProperties.AcknowledgeRevivesIff` | firmware/Services/AlarmRegistry.cpp:406-416 | after an acknowledgement the code is live exactly if it was in the table, and newly live exactly if its entry was cleared |
| `AlarmProperties.ClearClears` | firmware/Services/AlarmRegistry.cpp:377-387 | after a clear, whatever its save did, nothing is live under the code, its entry is stamped in place and every other entry is unchanged in its place |
| `AlarmProperties.ClearIfActiveAnswersIff` | firmware/Services/AlarmRegistry.cpp:389-404 | the conditional clear answers true exactly if the code was live; then it is the clear, and otherwise nothing changes |
| `AlarmProperties.LivenessIsHistory` | firmware/Services/AlarmRegistry.cpp:236-427 | over any run a code is live exactly if an accepted raise, or an acknowledgement that found its entry, came after its last clear, counting from the flash at the last power cycle |
| `AlarmHistory.SaveAnswersIff` | firmware/Services/AlarmRegistry.cpp:568-634 | a save answers true exactly if every step asked of storage succeeded and the flash then holds its record; which counter moves, and what the flash holds |
| `AlarmHistory.MigratesIff` | firmware/Services/AlarmRegistry.cpp:682-730 | without a record of its own a boot takes over and saves the legacy pair exactly if magic, version, count, length and checksum are good and it can be read |
| `AlarmHistory.BootContinues` | firmware/Services/AlarmRegistry.cpp:642-680 | a boot that reads a verified record continues from its generation with all other counters at zero |
| `AlarmHistory.RaiseStores` | firmware/Services/AlarmRegistry.cpp:236-375 | the table after a raise, field by field: the entry raised again, appended, or put in place of the longest cleared one |
| `AlarmHistory.RaiseAnswersIff` | firmware/Services/AlarmRegistry.cpp:236-375 | which of the four answers a raise gives: rejected exactly without room, RAM only exactly for a repetition of a live alarm, persisted exactly if the save verified |
| `AlarmHistory.RepeatedRaiseSettlesIff` | firmware/Services/AlarmRegistry.cpp:353-374 | raising the same again touches only RAM exactly if the message fits its 80-byte field; a longer one is written to flash at every raise |
| `AlarmHistory.RecordIsHistory` | firmware/Services/AlarmRegistry.cpp:236-427 | over any run an alarm's record is what the calls that touched it made of it, independent of other codes and of storage; only a cleared one is evicted |
| `AlarmHistory.SeverityIsWorst` | firmware/Services/AlarmRegistry.cpp:328-374 | over any calls an alarm's severity is the worst it was raised with since its occurrence began, and its raise time the beginning's |
| `AlarmHistory.LifecycleIsLast` | firmware/Services/AlarmRegistry.cpp:328-427 | active, acknowledged or cleared by the last call that says so: a raise only if it begins an occurrence, acknowledge-all only on an active record |
| `AlarmHistory.ClearTimeIsLast` | firmware/Services/AlarmRegistry.cpp:328-427 | the clear stamp is that of the last clear, reset by a new occurrence |
| `AlarmHistory.AckTimeIsLast` | firmware/Services/AlarmRegistry.cpp:328-427 | the acknowledgement stamp likewise |
| `AlarmHistory.UpdateTimeIsLast` | firmware/Services/AlarmRegistry.cpp:328-427 | the update stamp is that of the last call but acknowledge-all |
| `AlarmHistory.TextIsLast` | firmware/Services/AlarmRegistry.cpp:353-356 | the message is the last one raised that is not empty, clipped to its field |
| `AlarmHistory.CountersAreHistory` | firmware/Services/AlarmRegistry.cpp:236-634 | while power stays on, overflow, generation and failure counters count the rejected raises, verified saves and failed saves, in 32 and 16 bits |
| `ModbusCrc.ComputeCrc16` | firmware/Comm/ModbusRtuClient.cpp:118-128 | the two nested loops compute the fold that the theorems are about |
| `ModbusCrc.RegisterIsLinear` | firmware/Comm/ModbusRtuClient.cpp:123 | the bit step is linear and maps only zero to zero, since 0xA001 has its top bit set |
| `ModbusCrc.FoldIsSerial` | firmware/Comm/ModbusRtuClient.cpp:118-128 | feeding bytes in parallel and clocking eight times is feeding their bits one by one, lowest first |
| `ModbusCrc.SixteenBitsSeen` | firmware/Comm/ModbusRtuClient.cpp:118-128 | sixteen bits fed to a clear register leave it clear only if all are zero |
| `ModbusCrc.BurstDetected` | firmware/Comm/ModbusRtuClient.cpp:118-128 | BURST DETECTION: equal-length buffers that differ only within sixteen consecutive bits, at any bit position, have different checksums |
| `ModbusCrc.AdjacentBytesDetected` | firmware/Comm/ModbusRtuClient.cpp:118-128 | in particular any corruption of two adjacent bytes (MODBUS over Serial Line V1.02, section 6.2.2) |
| `ModbusCrc.ResidueZeroIff` | firmware/Comm/ModbusRtuClient.cpp:89-94 | a frame has residue zero exactly when its last two bytes are its checksum, low byte first |
| `ModbusCrc.CheckValue` | firmware/Comm/ModbusRtuClient.cpp:118-128 | the check value of CRC-16/MODBUS: nine ASCII digits give 0x4B37 |
| `ModbusRtu.BuildReadHolding` | firmware/Comm/ModbusRtuClient.cpp:130-142 | fills exactly eight bytes of the buffer: request and checksum |
| `ModbusRtu.RequestResidue` | firmware/Comm/ModbusRtuClient.cpp:130-142 | every request built has length eight and residue zero |
| `ModbusRtu.WindowRequest` | firmware/Comm/ModbusRtuClient.cpp:45-61 | the request sent: slave, function 3, register 100, thirteen registers, checksum low byte first |
| `ModbusRtu.AcceptsIffResidue` | firmware/Comm/ModbusRtuClient.cpp:76-94 | a frame is taken exactly when address, function and length match and its residue is zero |
| `ModbusRtu.ModbusRtuClient.Begin` | firmware/Comm/ModbusRtuClient.cpp:17-27 | starting a stopped client clears its data |
| `ModbusRtu.ModbusRtuClient.RequestReading` | firmware/Comm/ModbusRtuClient.cpp:45-61 | flushes, sends the window request and opens the response window; refuses when not started |
| `ModbusRtu.ModbusRtuClient.Receive` | firmware/Comm/ModbusRtuClient.cpp:69-71 | moves waiting bytes in order until the line is empty or the 64-byte buffer full |
| `ModbusRtu.ModbusRtuClient.FrameIsGood` | firmware/Comm/ModbusRtuClient.cpp:76-94 | the four tests in order decide whether the frame is taken |
| `ModbusRtu.ModbusRtuClient.DecodeRegisters` | firmware/Comm/ModbusRtuClient.cpp:97-100 | the decode loop reads the registers big-endian |
| `ModbusRtu.ModbusRtuClient.Settle` | firmware/Comm/ModbusRtuClient.cpp:73-105 | a full buffer closes the window with one frame or one error |
| `ModbusRtu.ModbusRtuClient.PollReading` | firmware/Comm/ModbusRtuClient.cpp:63-112 | one poll: receive, settle, or expire after 400 ms |
| `ModbusRtu.ModbusRtuClient.End` | firmware/Comm/ModbusRtuClient.cpp:29-34 | stops the client and drops the open request |
| `ModbusRtu.ReplyRoundTrip` | firmware/Comm/ModbusRtuClient.cpp:63-112 | a slave's reply, wherever it is split between buffer and line and whatever follows, is accepted at that time, decodes to the registers encoded, and closes the window without an error |
| `ModbusRtu.CorruptReplyRejected` | firmware/Comm/ModbusRtuClient.cpp:76-94 | a reply damaged within sixteen consecutive bits is taken under no configured address; one error is counted and the registers kept |
| `ModbusRtu.EveryRequestSettledOnce` | firmware/Comm/ModbusRtuClient.cpp:17-112 | over any run, begin and end included, each request is settled by one poll, was overtaken or dropped by end, or is still open, and each settling counts as one frame or one error |
| `ModbusRtu.ChunkedReplyDecodes` | firmware/Comm/ModbusRtuClient.cpp:63-112 | a reply cut into any pieces and polled in time decodes at the poll that sees the last piece |
| `ModbusSession.PollAnswersIff` | firmware/Comm/ModbusRtuClient.cpp:63-112 | a poll answers true exactly if a request is open and the first 31 bytes that came are a good reply, register by register; what closes the request, and that a bad or missing reply is one error and leaves the registers alone |
| `ModbusSession.ExchangeDecodes` | firmware/Comm/ModbusRtuClient.cpp:45-112 | whatever a started client was doing and whatever lay in its buffers: it sends when asked, and a reply that then arrives in any pieces within 400 ms is what it ends up holding |
| `ModbusSession.StartedIsHistory` | firmware/Comm/ModbusRtuClient.cpp:17-34 | over any calls a client is started exactly if its last begin came after its last end |
| `ModbusSession.StoppedIsSilent` | firmware/Comm/ModbusRtuClient.cpp:17-66 | and while it is not, it neither sends nor takes anything |
| `ModbusSession.ReadingIsHistory` | firmware/Comm/ModbusRtuClient.cpp:17-112 | over any calls the client holds the last reading it accepted since it was started, and when |
| `Crc32.BuildTable` | firmware/Utils/Crc.cpp:24-33 | the table holds the eight-fold bit step of every byte value |
| `Crc32.ComputeCrc32` | firmware/Utils/Crc.cpp:35-42 | the table-driven loop computes the bit-by-bit checksum |
| `Crc32.LookupIsEightSteps` | firmware/Utils/Crc.cpp:38-40 | one table lookup does the work of eight bit steps |
| `Crc32.FullPeriod` | firmware/Utils/Crc.cpp:28 | every register state returns after 2^32 - 1 steps, by thirty-two squarings in the field of the polynomial |
| `Crc32.FixedOnlyZero` | firmware/Utils/Crc.cpp:28 | for a step count no multiple of 65537 only the zero register returns to itself |
| `Crc32.PaddingInvisibleIff` | firmware/Utils/Crc.cpp:35-42 | zero bytes appended to a message leave its CRC-32 unchanged exactly when that CRC is all ones (for counts not divisible by 65537) |
| `Crc32.CheckValue` | firmware/Utils/Crc.cpp:24-42 | the check value of CRC-32: nine ASCII digits give 0xCBF43926 |
| `Journal.TransactionJournal.constructor` | firmware/Services/TransactionJournal.cpp:172-224 | boot: empty mirror, then the slots that load |
| `Journal.TransactionJournal.LoadFromNvs` | firmware/Services/TransactionJournal.cpp:133-170 | a slot is loaded exactly when committed, in bounds and its checksum holds; size and write index follow from the last one loaded |
| `Journal.TransactionJournal.FindInJournal` | firmware/Services/TransactionJournal.cpp:61-66 | the first valid slot with the id |
| `Journal.TransactionJournal.SaveEntry` | firmware/Services/TransactionJournal.cpp:72-122 | two writes under one key: the uncommitted record, then the committed one |
| `Journal.TransactionJournal.StoreNewEntry` | firmware/Services/TransactionJournal.cpp:293-320 | stage, commit, advance; on failure the previous occupant is back in RAM |
| `Journal.TransactionJournal.StoreTransaction` | firmware/Services/TransactionJournal.cpp:254-287 | known id: true exactly on equal hash and nothing changes; new id: stored durably or not at all in RAM |
| `Journal.TransactionJournal.UpdateAck` | firmware/Services/TransactionJournal.cpp:329-368 | rewrites the ACK of a matching entry, creates a missing one, refuses another hash |
| `Journal.TransactionJournal.Decide` | firmware/Services/TransactionJournal.cpp:370-392 | NEW, DUPLICATE with the stored ACK, CONFLICT, or UNAVAILABLE without the lock |
| `JournalProperties.Retained` | firmware/Services/TransactionJournal.h:33-49 | an entry is remembered with its hash through as many insertions as its slot is ahead of the write index |
| `JournalProperties.ThenEvicted` | firmware/Services/TransactionJournal.cpp:293-320 | and the next insertion overwrites exactly that slot |
| `JournalProperties.FreshDistance` | firmware/Services/TransactionJournal.cpp:293-320 | a fresh insertion is committed and good for fifteen more |
| `JournalProperties.InsertionKeepsDurableIff` | firmware/Services/TransactionJournal.cpp:308-315 | after a store, RAM answers only for committed entries exactly when it succeeded, its first write had no effect, or the slot was unoccupied |
| `JournalProperties.UpdateKeepsDurableIff` | firmware/Services/TransactionJournal.cpp:345-351 | the same for an update: success, no effect, or nothing changed |
| `JournalProperties.CrashTouchesOneSlot` | firmware/Services/TransactionJournal.cpp:108-121 | power lost at any point of a call: after the reboot its own slot holds the old record, nothing or the new one, and no other slot changed |
| `JournalProperties.InterruptedUpdateForgets` | firmware/Services/TransactionJournal.cpp:108-121 | power lost between the two writes of an update: the command is NEW again |
| `JournalProperties.ReloadedIff` | firmware/Services/TransactionJournal.cpp:101-106 | a committed record is found again by the loader exactly when its checksum is 0xFFFFFFFF: saving covers the payload, loading the payload and the zeros behind it |
| `JournalProperties.EmptyRecordForgotten` | firmware/Services/TransactionJournal.cpp:147-150 | the record with three empty fields is committed and never found again |
| `JournalProperties.RebootKeepsIff` | firmware/Services/TransactionJournal.cpp:133-170 | so a reboot keeps an entry exactly under that condition and forgets every other |
| `JournalProperties.RingAfterReload` | firmware/Services/TransactionJournal.cpp:133-170 | after a reload of any subset of the slots the ring restarts behind the highest one recovered: how many insertions each entry is good for, and that the last to go is the one in the highest slot |
| `JournalProperties.NewestAfterReload` | firmware/Services/TransactionJournal.cpp:166-168 | so the newest entry is still the last to go exactly when nothing was recovered above it |
| `JournalProperties.FoundAfterBootIff` | firmware/Services/TransactionJournal.cpp:133-170 | after a reboot a transaction is known exactly if the namespace opens and a committed record of it has an all-ones checksum |
| `JournalProperties.SeenIsHistory` | firmware/Services/TransactionJournal.cpp:254-368 | over any calls what the journal holds of one transaction, in RAM and under its key, is the fold of the calls made: its puts and updates, whole or torn, and the ring coming round to its slot |
| `JournalProperties.HeldIffPut` | firmware/Services/TransactionJournal.cpp:254-368 | within fifteen insertions a transaction not held before is held exactly if some call for it was carried out |
| `JournalProperties.StoreAnswersIff` | firmware/Services/TransactionJournal.cpp:254-320 | a store answers true exactly if it got the lock and the id is there under the same hash, or was not there and both writes were reported done; then RAM and flash hold it |
| `JournalProperties.UpdateAnswersIff` | firmware/Services/TransactionJournal.cpp:329-368 | an update answers true exactly if it got the lock, the id is not there under another hash, and both writes were reported done; otherwise RAM is unchanged |
| `JournalProperties.SizeIsExtent` | firmware/Services/TransactionJournal.cpp:133-320 | from any boot and over any calls the size is one past the last occupied slot |
| `JournalRecord.RecordParses` | firmware/Services/TransactionJournal.cpp:72-101 | every record laid down is parsed by the loader, to the entry with each text cut at its first zero byte |
| `JournalRecord.RecordReadsBackIff` | firmware/Services/TransactionJournal.cpp:72-165 | ROUND TRIP through the bytes: a record reads back as the entry laid down exactly if no text has a zero byte in it |
| `JournalRecord.StoredWholeIff` | firmware/Services/TransactionJournal.cpp:80-97 | what is laid down: lengths modulo 256 capped at 64 for id and hash, modulo 65536 capped at 1024 for the ACK; the whole entry exactly within the caps |
| `JournalRecord.SavedReadsBackIff` | firmware/Services/TransactionJournal.cpp:72-165 | from RAM to bytes and back: exactly within the caps and without zero bytes |
| `OtaHandler.MqttOtaHandler.Handle` | firmware/Network/MqttOtaHandler.cpp:28-337 | the whole call against the journal object: every refusal, replay, conflict, reservation, job and settlement |
| `OtaHandler.MqttOtaHandler.Process` | firmware/Network/MqttOtaHandler.cpp:150-337 | from the journal's decision to the ACK |
| `OtaHandler.MqttOtaHandler.RunJob` | firmware/Network/MqttOtaHandler.cpp:230-285 | the target check, the required fields, and whether the OTA manager is invoked |
| `OtaHandler.MqttOtaHandler.Finish` | firmware/Network/MqttOtaHandler.cpp:230-336 | job, terminal update, ACK, and the second rejection count |
| `OtaProperties.ReservationIsKnown` | firmware/Network/MqttOtaHandler.cpp:212-221 | a successful reservation leaves the id in the journal under the command's own hash |
| `OtaProperties.AtMostOncePerMemory` | firmware/Network/MqttOtaHandler.cpp:150-285 | AT MOST ONCE: over any deliveries, retries, store failures, calls of other tasks and power failures between any two steps or writes, a transaction starts at most once plus once for each time the journal forgot it |
| `OtaProperties.CommittedBeforeStarted` | firmware/Network/MqttOtaHandler.cpp:183-221 | over any run, whenever the OTA manager is invoked, a record of that transaction has been committed in NVS before |
| `OtaProperties.CommittedAtLaunch` | firmware/Network/MqttOtaHandler.cpp:183-285 | a new reservation is still committed in its slot at the launch, unless other tasks have inserted fifteen entries or updated that record since |
| `OtaProperties.FoundReservationCommittedIff` | firmware/Network/MqttOtaHandler.cpp:212-285 | a reservation that finds the transaction put in by another task writes nothing: at the launch the record is committed exactly if that task's was, within the retention distance and without an update of it |
| `OtaProperties.LaunchRecordIsHistory` | firmware/Network/MqttOtaHandler.cpp:150-285 | from the decision to the launch, over any traffic without a power failure, RAM and flash hold of the transaction what the journal calls in between have left |
| `OtaProperties.NoRestartWhileRetained` | firmware/Network/MqttOtaHandler.cpp:150-285 | without a power failure a transaction in a slot is not started again until more insertions came than the slot is ahead |
| `OtaProperties.RebootRestartsIff` | firmware/Network/MqttOtaHandler.cpp:150-285 | RESTART AFTER REBOOT: whatever call was cut short and whether or not the namespace opens, the command delivered again after a reboot starts its job again exactly if the journal can be asked and written and holds no committed record of it with an all-ones checksum |
| `OtaProperties.CutSettleRestarts` | firmware/Network/MqttOtaHandler.cpp:287-324 | one such case: power lost between the two writes of the terminal update |
| `OtaProperties.PlainRebootRestarts` | firmware/Network/MqttOtaHandler.cpp:150-285 | another: a reboot with no call under way, when the loader finds no record of the command |
| `OtaProperties.Accounting` | firmware/Network/MqttOtaHandler.cpp:29-336 | over any calls started + rejected + duplicates exceeds received by the number of target mismatches |
| `OtaPublications.UninterruptedIsHandle` | firmware/Network/MqttOtaHandler.cpp:28-337 | the steps taken without interruption are the call: journal, counters, invocations and publications |
| `OtaPublications.AcceptedTextIff` | firmware/Network/MqttOtaHandler.cpp:230-329 | of a reserved command the acceptance text is published exactly if the manager was asked and accepted, else the refusal text, and once the terminal update is made every redelivery is answered with that text |
| `OtaPublications.UnreservedDoesNothing` | firmware/Network/MqttOtaHandler.cpp:150-228 | without a reservation the manager is asked nothing and no text goes out but the replay of a duplicate |
| `OtaPublications.PublishesText` | firmware/Network/MqttOtaHandler.cpp:305-329 | after the terminal update the handler publishes the text it settled, over any traffic, before it is idle again |
| `OtaPublications.ReplayIsHistory` | firmware/Network/MqttOtaHandler.cpp:150-211 | what a redelivery publishes after any traffic without a power failure, from the history of the journal calls |
| `OtaPublications.PublishedIsReplayedIff` | firmware/Network/MqttOtaHandler.cpp:150-329 | from the first delivery to any later one, over all traffic without a power failure: the settled text is published, and the redelivery repeats it exactly if the journal calls in between, the settlement among them, left that text |
| `OtaPublications.RunBalances` | firmware/Network/MqttOtaHandler.cpp:28-337 | over any interleaving, power failures included, every message received since the last one is counted as started, rejected or duplicate or is under way, and only misdirected starts are counted twice |
| `ConfigReceiver.MqttConfigReceiver.Handle` | firmware/Network/MqttConfigReceiver.cpp:54-297 | the whole call against the journal object |
| `ConfigReceiver.MqttConfigReceiver.Process` | firmware/Network/MqttConfigReceiver.cpp:201-297 | decide, apply, store, acknowledge |
| `ConfigProperties.AckedIsDurable` | firmware/Network/MqttConfigReceiver.cpp:266-284 | in a call with no other journal traffic the ACK text goes out only with the record committed; otherwise DURABILITY_FAILURE does |
| `ConfigProperties.ReplayIsVerbatim` | firmware/Network/MqttConfigReceiver.cpp:215-236 | REPLAY: after such a call, a later delivery of the acknowledged command, after any journal traffic within the retention distance that does not rewrite its record, republishes the same bytes and applies nothing |
| `ConfigProperties.OtherHashNeverApplies` | firmware/Network/MqttConfigReceiver.cpp:238-244 | the same id with another payload is rejected and changes nothing |
| `ConfigProperties.CountersBalance` | firmware/Network/MqttConfigReceiver.cpp:54-297 | received = accepted + rejected + duplicates over any calls |
| `ConfigProperties.AppliedOncePerMemory` | firmware/Network/MqttConfigReceiver.cpp:246-277 | a command is applied once, plus once for each time its record was lost or was never made, over any interleaving with other tasks and power failures |
| `ConfigProperties.FailedStoreAppliesAgain` | firmware/Network/MqttConfigReceiver.cpp:271-277 | the retry after DURABILITY_FAILURE applies the command again |
| `ConfigInterleaving.UninterruptedIsHandle` | firmware/Network/MqttConfigReceiver.cpp:54-297 | the four steps taken without interruption are the call: journal, counters, applications and publications |
| `ConfigInterleaving.PublishedIsRecordedIff` | firmware/Network/MqttConfigReceiver.cpp:201-297 | THE RACE WITH THE EXECUTOR: over any calls of other tasks between the decision and the record, when the record is reported durable, and that the published text is the one recorded and replayed exactly if those calls left no entry of the command or one with the same text, and is committed exactly if they left none or that very record whole |
| `ConfigInterleaving.LeftNothingIff` | firmware/Services/TransactionJournal.cpp:254-368 | within fifteen insertions other tasks left no entry exactly if none of their calls for the command was carried out |
| `ConfigInterleaving.PublishedIsReplayedIff` | firmware/Network/MqttConfigReceiver.cpp:215-284 | over any traffic without a power failure, from the first delivery to any later one: the text is published once recorded, and the redelivery repeats it exactly if the journal calls in between left an entry with that text |
| `ConfigInterleaving.ReplayIsHistory` | firmware/Network/MqttConfigReceiver.cpp:215-244 | what a redelivery publishes after any such traffic, from the history of the journal calls |
| `ConfigInterleaving.TerminalOvertakesQueued` | firmware/Network/MqttConfigReceiver.cpp:246-284 | from any idle state in which a command is new: the executor's outcome is recorded first, the queued text is published as recorded, and redeliveries are answered with the outcome |
| `ConfigInterleaving.PublishedWithoutRecord` | firmware/Network/MqttConfigReceiver.cpp:246-284 | and a cut second update leaves the published text without any committed record |
| `ConfigInterleaving.RebootAppliesAgainIff` | firmware/Network/MqttConfigReceiver.cpp:201-246 | whatever call was cut short, the command delivered again after a reboot is applied again exactly if the journal can be asked and the loader does not find it |
| `ConfigInterleaving.RetryAppliesAgainIff` | firmware/Network/MqttConfigReceiver.cpp:246-277 | without a reboot a command just applied is applied again by the next delivery exactly if the journal can be asked, had no entry of it, and the record was not made |
| `ConfigInterleaving.RunBalances` | firmware/Network/MqttConfigReceiver.cpp:54-297 | over any interleaving, power failures included, every message received since the last one is counted as accepted, rejected or duplicate, or is under way |
| `CommandGate.ValidIdIff` | firmware/Services/CommandCanonicalizer.cpp:136-148 | a transaction id is 1 to 64 characters from letters, digits, hyphen and underscore |
| `CommandGate.EnvelopeIff` | firmware/Services/CommandCanonicalizer.cpp:136-285 | the envelope is accepted exactly for version 1, a valid id and nonzero issue and expiry times, read field by field |
| `CommandGate.ExpiredIff` | firmware/Services/CommandCanonicalizer.cpp:174-218 | with a clock a command is in time up to and including its expiry; without one, exactly if it energizes nothing |
| `CommandGate.ConfigPassesIff` | firmware/Network/MqttConfigReceiver.cpp:54-200 | a message reaches the journal exactly if it is sound, field by field with the 16384-byte limit, and in time |
| `CommandGate.ConfigAges` | firmware/Network/MqttConfigReceiver.cpp:150-165 | a message that passes at one time passes at every earlier one, and one refused for its age is refused at every later one |
| `CommandGate.ConfigWithoutClock` | firmware/Network/MqttConfigReceiver.cpp:150-165 | without a clock exactly those pass that switch nothing on and would have passed when issued |
| `CommandGate.ConfigAppliesInTime` | firmware/Network/MqttConfigReceiver.cpp:54-277 | whatever a call applies is sound and not past its expiry, and nothing is switched on without a clock |
| `CommandGate.ConfigRefusalIff` | firmware/Network/MqttConfigReceiver.cpp:54-200 | how each message that is not let through is answered and counted, and that a foreign topic gets no answer |
| `CommandGate.ConfigDeclinesIff` | firmware/Network/MqttConfigReceiver.cpp:201-297 | when a command that passes is applied, declined as a conflict, as unavailable or as not durable, replayed, or accepted |
| `CommandGate.OtaPassesIff` | firmware/Network/MqttOtaHandler.cpp:28-149 | the same gate for OTA commands: sound, in time, start or check |
| `CommandGate.OtaAges` | firmware/Network/MqttOtaHandler.cpp:110-125 | and its monotonicity in the clock |
| `CommandGate.OtaWithoutClock` | firmware/Network/MqttOtaHandler.cpp:110-125 | without a clock a check passes as when issued, a start never |
| `CommandGate.OtaInvokesInTime` | firmware/Network/MqttOtaHandler.cpp:28-285 | whatever the OTA manager is invoked for is sound and not past its expiry, and no start without a clock |
| `CommandGate.OtaRefusalIff` | firmware/Network/MqttOtaHandler.cpp:28-149 | how each OTA message that is not let through is answered and counted |
| `CommandGate.OtaDeclinesIff` | firmware/Network/MqttOtaHandler.cpp:150-228 | when an OTA command is answered as a conflict, a replay, unavailable or not durable |
| `CalibrationModel.AcceptedIff` | firmware/Network/MqttConfigReceiver.cpp:342-381 | calibration.update is accepted exactly when every field present is finite and in range, and is then live and saved |
| `CalibrationModel.RangesIff` | firmware/Network/MqttConfigReceiver.cpp:342-376 | the ranges: 0 to 3300 mV, 10 to 400 mV/A, corrections of up to 50 either way, each field optional |
| `CalibrationModel.RefusedChangesNothingIff` | firmware/Network/MqttConfigReceiver.cpp:345-376 | a refused update never reaches flash, but leaves the live calibration unchanged exactly if the version and the fields ahead of the refused one repeat it |
| `CalibrationModel.HalfApplied` | firmware/Network/MqttConfigReceiver.cpp:345-359 | a good offset with an impossible sensitivity is refused and yet live |
| `CalibrationStore.Store.ApplyUpdate` | firmware/Network/MqttConfigReceiver.cpp:342-384 | the version, the fields one by one, the source and the save, in place |
| `BatteryComm.BatteryCommManager.constructor` | firmware/Comm/BatteryCommManager.cpp:35-73 | probing, or disabled for the modes without polling |
| `BatteryComm.BatteryCommManager.AdvanceProbe` | firmware/Comm/BatteryCommManager.cpp:272-279 | the scan stops at the next client in probe order or past the end |
| `BatteryComm.BatteryCommManager.ProbeClient` | firmware/Comm/BatteryCommManager.cpp:291-328 | one probing step: ask, count a success, lock, or spend an attempt |
| `BatteryComm.BatteryCommManager.PollActive` | firmware/Comm/BatteryCommManager.cpp:332-361 | one locked step: poll when due, count failures, declare the loss |
| `BatteryComm.BatteryCommManager.Tick` | firmware/Comm/BatteryCommManager.cpp:261-392 | the five-state machine |
| `BatteryComm.BatteryCommManager.End` | firmware/Comm/BatteryCommManager.cpp:75-83 | drops the clients and disables the machine |
| `BatteryComm.BatteryCommManager.Reconfigure` | firmware/Comm/BatteryCommManager.cpp:85-88 | new clients and a restart that keeps every counter and timer |
| `BatteryComm.BatteryCommManager.CrossCheckShunt` | firmware/Comm/BatteryCommManager.cpp:394-444 | the streak, the interlock and the reported difference |
| `BatteryComm.BatteryCommManager.SocAuthoritative` | firmware/Comm/BatteryCommManager.cpp:212-243 | the five conditions of authority |
| `BatteryProperties.InterlockIsHistory` | firmware/Comm/BatteryCommManager.cpp:394-444 | over any calls and ticks the streak is the last stretch of over-threshold calls capped at three, and the interlock is on exactly from three |
| `BatteryProperties.NoAuthorityWhileDisagreeing` | firmware/Comm/BatteryCommManager.cpp:212-243 | during such a stretch the battery is never authoritative |
| `BatteryProperties.LockedAtSecondHit` | firmware/Comm/BatteryCommManager.cpp:75-328 | over any ticks, cross-checks and reconfigurations a protocol is locked exactly by the second successful poll with no timeout, restart or lock in between |
| `BatteryProperties.LockClientIff` | firmware/Comm/BatteryCommManager.cpp:271-328 | the second success locks the client of the first exactly if fewer requests were refused in between than it had attempts left and nothing was reconfigured |
| `BatteryProperties.LockAcrossClients` | firmware/Comm/BatteryCommManager.cpp:292-320 | for every two neighbouring clients: three refusals move the lock from the one to the other |
| `BatteryProperties.LostAtThirdFailure` | firmware/Comm/BatteryCommManager.cpp:332-361 | a lock is given up exactly on the third failed poll in a row or when its client is gone |
| `BatteryProperties.EntryStampsClock` | firmware/Comm/BatteryCommManager.cpp:285-357 | entering Lost or IdleNoBms records the time |
| `BatteryProperties.StaysCooling` | firmware/Comm/BatteryCommManager.cpp:364-388 | neither is left before a tick at least 60 s later, unless the manager is reconfigured |
| `BatteryProperties.SilentTickDescends` | firmware/Comm/BatteryCommManager.cpp:271-330 | every unanswered tick lowers a measure of slots, attempts and waiting time, or ends probing |
| `BatteryProperties.SilentProbingEnds` | firmware/Comm/BatteryCommManager.cpp:271-330 | TERMINATION: if nobody answers and the clock moves, IdleNoBms is reached within the measure |
| `BatteryProperties.StaleWaitCostsOneAttempt` | firmware/Comm/BatteryCommManager.cpp:291-328 | a wait left over from an earlier lock costs the first client one attempt and no request is sent |
| `BatteryProperties.ReconfigureKeepsSuccess` | firmware/Comm/BatteryCommManager.cpp:75-88 | a case of LockedAtSecondHit: a success counted before a reconfiguration, and one new poll of the rebuilt clients locks |
| `BatteryProperties.ReconfigureSkipsClientsIff` | firmware/Comm/BatteryCommManager.cpp:75-88 | the probe index is not rewound: after a reconfiguration the first tick gives up exactly if no client lies at or after it |
| `BatteryProperties.DataIsLastAnswer` | firmware/Comm/BatteryCommManager.cpp:310-361 | over any run the reading held is the answer of the last good poll or locking poll since the last restart out of Lost |
| `BatteryProperties.OverIff` | firmware/Comm/BatteryCommManager.cpp:394-425 | a comparison finds the currents apart exactly by more than 0.5 A and 5 % of the shunt's, on a young reading with a plausible current |
| `BatteryProperties.CheckReports` | firmware/Comm/BatteryCommManager.cpp:394-444 | a check reports the absolute difference exactly if it compares |
| `BatteryProperties.AuthorityIff` | firmware/Comm/BatteryCommManager.cpp:212-243 | so over any run the battery is authoritative exactly while it is locked, its last answer is young, free of faults and has a charge from 0 to 100 %, and fewer than three comparisons in a row disagreed |
| `BatteryPolling.AsksIff` | firmware/Comm/BatteryCommManager.cpp:332-345 | over any run the locked client is asked exactly when no request is open and the interval, or 5 s for none, has passed since the last was tried |
| `BatteryPolling.OpenIsHistory` | firmware/Comm/BatteryCommManager.cpp:332-361 | a request is open from the tick that sent it to an answer, 4.5 s without one, or a new lock; its send time is the last accepted request's |
| `BatteryPolling.LockStarts` | firmware/Comm/BatteryCommManager.cpp:300-320 | a lock takes over client, answer and time and leaves no failure, success or open request behind |
| `BatteryPolling.LockTimeIsHistory` | firmware/Comm/BatteryCommManager.cpp:300-320 | over any run the lock time is that of the last locking tick |
| `BatteryPolling.GivesUpIff` | firmware/Comm/BatteryCommManager.cpp:271-290 | probing is given up exactly by a tick that looks for the next client and finds none, and the scan is counted |
| `BatteryPolling.CyclesAreExhaustions` | firmware/Comm/BatteryCommManager.cpp:271-290 | over any run the cycle counter counts those ticks |
| `BatteryPolling.RestartsIff` | firmware/Comm/BatteryCommManager.cpp:364-392 | a minute after giving up, and not before, probing starts over; only a lost battery is forgotten |
| `BatteryPolling.RestartScansFromTheFirst` | firmware/Comm/BatteryCommManager.cpp:271-392 | and the next tick asks the first client there is |
| `EventRing.GasOtaReporter.Post` | firmware/Network/GasOtaReporter.cpp:80-96 | the producer's critical section is the drop-oldest put |
| `EventRing.GasOtaReporter.Report` | firmware/Network/GasOtaReporter.cpp:70-102 | disabled or empty reports are ignored, fields are clipped, then put |
| `EventRing.GasOtaReporter.TakeHead` | firmware/Network/GasOtaReporter.cpp:266-274 | the consumer's critical section |
| `EventRing.GasOtaReporter.FlushOne` | firmware/Network/GasOtaReporter.cpp:142-289 | one uninterrupted flush for each outcome of the POST |
| `EventRing.GasOtaReporter.Tick` | firmware/Network/GasOtaReporter.cpp:113-139 | gates, the idle reset and the 5, 15, 45 s cadence |
| `RingModel.PutIsDropOldest` | firmware/Network/GasOtaReporter.cpp:80-96 | on the queue the ring stands for, a put appends and, when full, drops the oldest |
| `RingModel.TakeIsPop` | firmware/Network/GasOtaReporter.cpp:266-274 | a take removes the oldest |
| `RingModel.TakeStaysClean` | firmware/Network/GasOtaReporter.cpp:266-274 | slots without a pending event are blank, and the last event out leaves the ring as at boot |
| `RingInterleaving.NothingLostOrReordered` | firmware/Network/GasOtaReporter.cpp:70-289 | REFINEMENT: in every interleaving of producers and the flusher, events leave in the order reported, each once: consumed, dropped or overwritten; the rest are pending, and the counts add up |
| `RingInterleaving.ConsumedIsPostedIff` | firmware/Network/GasOtaReporter.cpp:142-274 | from the peek to the answer or the drop, over any interleaving: the event removed lies as many places behind the one posted as reports overflowed the ring, so it is that one exactly if no more reports came in than there was room for |
| `RingInterleaving.OverflowConsumesUnsent` | firmware/Network/GasOtaReporter.cpp:145-274 | one report into a full ring during a POST makes the answer consume an event never sent |
| `RingInterleaving.StaleBudgetIff` | firmware/Network/GasOtaReporter.cpp:94-152 | the fresh attempt budget an overflow grants is lost to the unlocked increment exactly if attempts had been counted and the ring overflowed between its load and its store |
| `RingInterleaving.UninterruptedIsFlush` | firmware/Network/GasOtaReporter.cpp:142-289 | without interference the steps are the flush call |
| `RingInterleaving.ReportIsProduce` | firmware/Network/GasOtaReporter.cpp:70-102 | a report is a produced event exactly if enabled and with a state; it carries the first 19, 23 and 111 characters of its texts |
| `RingInterleaving.TickTriesIff` | firmware/Network/GasOtaReporter.cpp:113-289 | a tick tries to send exactly if enabled, online, with an event and after the pause; what a try does to clock, failures, queue and attempts, and that twenty failed attempts drop the event |
| `RingInterleaving.FailsAreUnanswered` | firmware/Network/GasOtaReporter.cpp:113-289 | over any ticks the pause is that of the tries unanswered in a row, which are counted in eight bits |
| `Rs485Console.Rs485Console.CloseFrame` | firmware/Comm/Rs485Console.cpp:69-80 | a non-empty buffer becomes the newest frame of the ring, an empty one nothing |
| `Rs485Console.Rs485Console.Accept` | firmware/Comm/Rs485Console.cpp:52-65 | one byte of the loop; the gap test inside the loop is unreachable |
| `Rs485Console.Rs485Console.Tick` | firmware/Comm/Rs485Console.cpp:42-67 | gap test, then the byte loop |
| `Rs485Console.Rs485Console.Frames` | firmware/Comm/Rs485Console.cpp:98-127 | walking the ring from the write position yields the last sixteen frames ever closed, oldest first |
| `Rs485Properties.BytesConserved` | firmware/Comm/Rs485Console.cpp:42-80 | CONSERVATION over any ticks: the closed frames and the open one, joined, are the bytes received, and every frame has 1 to 64 bytes |
| `Rs485Properties.CutsAtGapOrCap` | firmware/Comm/Rs485Console.cpp:45-64 | a tick closes the open frame exactly at an idle gap and otherwise cuts only full frames |
| `Rs485Properties.GapSeparates` | firmware/Comm/Rs485Console.cpp:45-48 | bytes on the two sides of a gap never share a frame |
| `Rs485Properties.SlicingIrrelevant` | firmware/Comm/Rs485Console.cpp:50-66 | how the bytes of one millisecond are sliced makes no difference |
| `Rs485Properties.StampsAreLastBytes` | firmware/Comm/Rs485Console.cpp:42-80 | over any ticks every frame is stamped with the arrival time of its last byte |
| `TrimmedMean.OutliersRejected` | firmware/Drivers/AdcVoltageDriver.cpp:87-100 | ROBUSTNESS: if at most a quarter of the samples lie outside [a, b], the filtered value does not |
| `TrimmedMean.BreaksBeyondQuarter` | firmware/Drivers/AdcVoltageDriver.cpp:94-99 | tight for every number of samples: one outlier more than a quarter drags the result anywhere |
| `AdcVoltage.AdcVoltageDriver.MedianAndReject` | firmware/Drivers/AdcVoltageDriver.cpp:87-100 | sort, drop a quarter at either end, average |
| `AdcVoltage.AdcVoltageDriver.StoreSample` | firmware/Drivers/AdcVoltageDriver.cpp:158-160 | the ring takes the sample and advances |
| `AdcVoltage.AdcVoltageDriver.FilterSample` | firmware/Drivers/AdcVoltageDriver.cpp:158-165 | sample, trimmed mean, exponential average |
| `AdcVoltage.AdcVoltageDriver.ReadFast` | firmware/Drivers/AdcVoltageDriver.cpp:107-147 | the fast path, its plausibility window and its early return |
| `AdcVoltage.AdcVoltageDriver.Tick` | firmware/Drivers/AdcVoltageDriver.cpp:102-169 | both paths |
| `AdcProperties.RingHoldsLast` | firmware/Drivers/AdcVoltageDriver.cpp:158-160 | the ring holds exactly the last sixteen samples |
| `AdcProperties.FilteredStaysInside` | firmware/Drivers/AdcVoltageDriver.cpp:87-165 | over any samples fed to the filter: if in every window at most a quarter are outside [a, b], the average never leaves it |
| `AdcProperties.ConstantInputConverges` | firmware/Drivers/AdcVoltageDriver.cpp:87-165 | once the ring is filled by a constant input, every sample takes exactly a fifth off the distance to it |
| `AdcProperties.InputIsFollowed` | firmware/Drivers/AdcVoltageDriver.cpp:87-165 | whatever was sampled before: after fifteen equal samples, n more leave 0.8^n of the distance |
| `AdcTicks.TicksFeedTheFilter` | firmware/Drivers/AdcVoltageDriver.cpp:102-169 | over any ticks from boot the driver shows the filter run over exactly the values fed to it, each the last accepted fast reading or the initial zero |
| `AdcTicks.VoltageStaysInside` | firmware/Drivers/AdcVoltageDriver.cpp:102-169 | end to end: the published voltage never leaves [a, b] if at most a quarter of each window fed to the filter does |
| `AdcTicks.FirstSampleZeroIff` | firmware/Drivers/AdcVoltageDriver.cpp:107-160 | the first value fed to the filter is the initial zero exactly if no reading was accepted before and the tick came too soon after the last attempt to take one |
| `AdcTicks.BootZeroIsSampled` | firmware/Drivers/AdcVoltageDriver.cpp:107-160 | one such case: an implausible first reading and a second tick inside the fast interval |
| `AdcTicks.StatusIsLastReading` | firmware/Drivers/AdcVoltageDriver.cpp:102-169 | over any ticks raw voltage and status are those of the last fast reading, at least 100 ms apart and good from 30 to 60 V, and the stamp that of the last filter sample, at least 500 ms apart |
| `Ina219.Ina219Driver.ApplyGain` | firmware/Drivers/Ina219Driver.cpp:103-125 | the gain changes and a sample is marked for discarding only if write and read-back succeeded |
| `Ina219.Ina219Driver.EvaluateSwitch` | firmware/Drivers/Ina219Driver.cpp:131-141 | the two thresholds |
| `Ina219.Ina219Driver.Accept` | firmware/Drivers/Ina219Driver.cpp:246-275 | spike rejection, averaging, the published reading, then the gain decision on the raw value |
| `Ina219.Ina219Driver.ReadSample` | firmware/Drivers/Ina219Driver.cpp:224-275 | saturation switches the gain and skips the sample |
| `Ina219.Ina219Driver.CountError` | firmware/Drivers/Ina219Driver.cpp:214-222 | the tenth error in a row starts the cooldown |
| `Ina219.Ina219Driver.Tick` | firmware/Drivers/Ina219Driver.cpp:183-276 | the whole tick |
| `InaProperties.SwitchNeedsLevel` | firmware/Drivers/Ina219Driver.cpp:131-141 | a change to coarse gain needs at least 100 A, a change back an accepted sample below 90 A |
| `InaProperties.AmpsOfShunt` | firmware/Drivers/Ina219Driver.cpp:226-252 | the saturation threshold of 78 mV is 104 A |
| `InaProperties.OneDiscardPerSwitch` | firmware/Drivers/Ina219Driver.cpp:200-211 | gain changes and discarded samples alternate one for one over any run |
| `InaProperties.SwitchesCostSwings` | firmware/Drivers/Ina219Driver.cpp:131-141 | NO CHATTERING: the current must have moved at least 10 A for every gain change after the first |
| `InaProperties.CurrentBounded` | firmware/Drivers/Ina219Driver.cpp:251-265 | the reported current stays within 160 A over any run |
| `InaProperties.CooldownHoldsIff` | firmware/Drivers/Ina219Driver.cpp:187-196 | within a minute of the tenth error the sensor is left alone, except across the wrap of the millisecond counter |
| `InaProperties.PublishedSample` | firmware/Drivers/Ina219Driver.cpp:224-275 | a sample taken over moves the published current three tenths of the way towards minus a seventy-fifth of the register, and publishes voltage, power, time and gain of the sample |
| `InaProperties.UnpublishedTick` | firmware/Drivers/Ina219Driver.cpp:183-255 | every other tick publishes a status only, and which |
| `InaProperties.ErrorsAndCooldown` | firmware/Drivers/Ina219Driver.cpp:187-236 | failed reads count up to the cooldown; a good read or the end of a cooldown clears them |
| `InaProperties.LevelSwitchesIff` | firmware/Drivers/Ina219Driver.cpp:131-141 | a sample taken over switches the gain exactly at 100 A and below 90 A, if the write verifies |
| `InaProperties.TurnsToSensorIff` | firmware/Drivers/Ina219Driver.cpp:183-199 | a tick turns to the sensor exactly out of the cooldown and half a second after the last that did |
| `Backoff.MqttTransport.Reconnect` | firmware/Network/MqttTransport.cpp:197-259 | one reconnect attempt in 16-bit arithmetic |
| `BackoffProperties.DelayIsPower` | firmware/Network/MqttTransport.cpp:252-254 | after n failures the delay is 5000 * 2^n modulo 65536 |
| `BackoffProperties.NeverCapped` | firmware/Network/MqttTransport.cpp:253-254 | the 60 s cap never takes effect |
| `BackoffProperties.AsIntendedIff` | firmware/Network/MqttTransport.cpp:249-258 | the delay is min(5000 * 2^n, 60000) exactly for n up to 3 |
| `BackoffProperties.ThenZero` | firmware/Network/MqttTransport.cpp:252 | from the thirteenth failure on the delay is 0 |
| `BackoffProperties.WaitIsDrawnIff` | firmware/Network/MqttTransport.cpp:249-258 | after a failure every wait from 5000 ms to the doubled delay, and no other, is drawn by some draw |
| `BackoffProperties.AttemptOutcome` | firmware/Network/MqttTransport.cpp:197-259 | an attempt is made only after the wait; a success resets delay and wait and is counted |
| `BackoffProperties.DoublingGrowsIff` | firmware/Network/MqttTransport.cpp:252-254 | another failure lengthens the delay exactly while 0 < delay < 32768 |
| `BackoffProperties.RunFollowsFailures` | firmware/Network/MqttTransport.cpp:208-258 | over any run the delay is the one due to the failures in a row and the wait lies in [5000, 60000] |
| `BackoffProperties.JitterGoneIff` | firmware/Network/MqttTransport.cpp:249-258 | the wait of a failing attempt is the minimum whatever is drawn exactly on the ninth failure in a row and from the thirteenth on |

## Left out

- RelayBarrier.EmergencyBarrier: covers force calls that hold the write mutex when they write; for the starved fallback RelayContainment.BreaksUnlessContained gives the exact condition. A mutex attempt is acquired or timed out, without the length of the wait.
- RelayBarrier.ShadowAgreesWithHardware: excludes runs with starved fallbacks and recovery on a known shadow, for which it is false.
- AlarmProperties.RunKeepsInvariant: assumes that a write under one NVS key is atomic, that the namespace opens and its records can be read at boot, and that codes have at most 31 characters; the exact role of each is stated by BootShowsTheFlashIff and RaiseKeepsCodesDistinctIff.
- AlarmRegistry.AlarmRegistry.LoadFromNvs: which of the two ways `getBytes` treats a short buffer is a parameter, since the library is not part of this model. The checksum is a parameter used alike by saving and loading.
- AlarmRegistry.AlarmRegistry.SaveToNvs: the byte layout of the record and of the legacy pair is that of a C struct copied as a whole, padding included, and is not modelled; equal records read back equal.
- RelayContainment.BreaksUnlessContained: for states in which some task is outside the mutex; a single task that holds it is alone in the system.
- JournalProperties.ReloadedIff: the loader hands back the entry whose record it checks; that its parser reads the same entry out of the bytes, exactly if no text has a zero byte in it, is JournalRecord.RecordReadsBackIff.
- OtaProperties.CommittedBeforeStarted: speaks of some moment before the launch; CommittedAtLaunch, FoundReservationCommittedIff and LaunchRecordIsHistory speak of the launch itself.
- OtaProperties.AtMostOncePerMemory: bounds the starts by the times the journal forgot the transaction, since eviction and reboots do forget; NoRestartWhileRetained gives the bound of one while it remembers.
- ConfigProperties.AckedIsDurable: the call runs without other journal traffic; ConfigInterleaving.PublishedIsRecordedIff has it among other tasks.
- ConfigProperties.ReplayIsVerbatim: the accepting call runs without other journal traffic, and the traffic after it contains no reboot and no terminal update of that command; ConfigInterleaving.PublishedIsReplayedIff has the general statement.
- ConfigInterleaving.PublishedIsReplayedIff: runs without a power failure; what a reboot leaves is ConfigInterleaving.RebootAppliesAgainIff.
- BatteryProperties.SilentProbingEnds: ticks that time out on the lock do nothing and are not part of the run; the clock moves by less than 2^32 - 1500 ms between ticks.
- ModbusRtu.EveryRequestSettledOnce: frame and error counters are unbounded, here and in the handlers.
- The subscription table of the MQTT transport and its presence messages.
- TrimmedMean.OutliersRejected: samples are real numbers; rounding and NaN are not modelled.
- InaProperties.SwitchesCostSwings: currents are real numbers and a gain write either verifies or changes nothing in the driver; the register left behind by a failed verification is not modelled.
- BatteryComm.BatteryCommManager.Tick: the clients behind it are two answers per tick, accepted request and poll result.
- The scaling and plausibility filters of `decodeRegisters` and the three-point voltage calibration: expressions without state.
- HMAC, SHA-256, Ed25519, JSON and canonicalisation: a command arrives as a parsed document with its hash, an ACK is an opaque text.
- The bodies of the command types other than `calibration.update`: applying is one step with an outcome; the outcome of the calibration's flash write is not modelled.
- Log output, REST and web handlers, and getters that copy a field.
- FreeRTOS priorities, watchdog resets and the boot guards that halt when a mutex cannot be created.
- The Pylontech, Modbus TCP, PZEM, SHT31, RTC and ACS712 drivers: register decoding of the same kind as what is modelled.
- The emergency supervisor, the relay controller and the OTA manager: callers and callees, represented by arbitrary calls and outcomes.
