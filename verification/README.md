# ForgeKey firmware: a verified model of its state machines

ForgeKey is ESP32 firmware for small facility devices. Most of it moves bytes between
peripherals and a broker; eight source files hold self-contained state machines and
algorithms whose correctness is a matter of whole runs rather than of single calls.
This project models those eight in Dafny and proves what they keep.

`dafny verify dfyconfig.toml` checks everything.

## How the project is laid out

Each component has one file with its model. Where the properties are about runs a second
file holds those theorems, and a third says what single calls promise, in plain terms or
against a table, without the model's step functions.

| component | files |
|---|---|
| 32-bit clock words | `Words.dfy` |
| MQTT retry queue | `MqttOutbox.dfy`, `MqttOutboxRuns.dfy`, `MqttOutboxCalls.dfy` |
| cabinet lock | `CabinetLock.dfy`, `CabinetLockRuns.dfy`, `CabinetLockInputs.dfy`, `CabinetLockCalls.dfy` |
| health watchdog | `HealthWatchdog.dfy`, `HealthWatchdogRuns.dfy`, `HealthWatchdogTicks.dfy` |
| command replay cache | `ReplayCache.dfy`, `ReplayCacheRuns.dfy` |
| ePaper wake cycle | `EpaperWake.dfy`, `EpaperWakeRuns.dfy`, `EpaperWakeBranches.dfy` |
| board pin arbitration | `BoardPins.dfy` |
| BL0942 meter framing | `MeterFraming.dfy`, `MeterFramingRuns.dfy`, `MeterFramingCalls.dfy` |
| firmware version order | `VersionOrder.dfy` |

A model file has two halves. The first gives the state as a value and one step function
per operation. The second is the device's own form, a class over arrays and fields (or a
linked list, or a loop with cursors) whose methods are proved to take exactly those
steps. The theorems are about runs of the step functions, so they hold of the class.

Widths are kept: millisecond counters, minute counters and event counters are 32-bit and
wrap, attempt and suspension counters are bytes. Where a property is about true time,
calls carry a true time and the code sees only its stamp.

Inputs the model does not compute are parameters: the answers of the broker, the pin
levels, the link states, the outcome of a recovery callback, the verdict of a signature
check, the reply of the image server.

## Where the code does not keep a property

Each of these is proved, with the exact condition under which the code does keep it.

- A client restart reloads stored entries onto a queue that was never emptied and
  duplicates them (`RestartDuplicates`, `RestartDuplicatesOne`); storage then disagrees until
  the next accepted critical enqueue or publish (`AgreesExactlyWhenSettled`). A critical entry with a
  topic of 160 bytes or more is stored but not loaded back (`PowerCycleRebuilds`,
  `LongTopicIsLost`). The one-byte attempt counter lets the backoff fall back after 256
  failures (`BackoffCounterWraps`, `RejectionDate`). An entry reloaded in the second half
  of a turn of the counter is held back until the turn ends (`ReloadedIsHeldBack`).
- A debounced input follows its intended value only while sample gaps are at most 2^32
  less the debounce time; a gap just below 2^32 is not enough (`DebounceExact`). The same
  holds for the end of the solenoid pulse (`PulseExact`).
- An actuation during a live pulse suspends the watchdog once more than it is resumed
  (`SuspensionsLeakByOverlap`, `SuspensionsBalance`, `OverlapLeaks`).
- An authorised opening raises the door alarm if a tick sees the door still closed and
  locked after the actuation, since that tick goes back to SECURE (`OpeningRaisesAlarm`,
  `AuthorisedOpeningAlarms`).
- After a successful recovery the watchdog still makes its reboot decision, against a
  zeroed stamp, and so restarts a recovered device once its counter reads fifteen minutes
  (`RestartIsJustified`, `RecoveryRestartsAnyway`, `RecoveredThenRestarted`). A connected
  link marked healthy a millisecond after the tick's own clock reading is found late in
  that tick (`LateIfReadLater`), and a restart may then come before its timeout is over
  (`RestartExact`, `ReadLaterThenRestarted`); with a callback that reconnects, the device
  restarts with a working link (`WorkingLinkRestarts`, `WorkingLinkRestarted`). A counter that reads zero defeats the two
  zero sentinels (`OverdueWithoutStamp`, `ZeroReading`, `ThrottleExact`,
  `ZeroStampReopensThrottle`), and a full turn of the counter holds a warning back
  (`FullTurnHoldsBack`). A suspension counter at its limit loses a level to the critical
  section of a stored warning (`WrittenEffect`).
- A replay cache whose text exceeds 1023 characters, or whose values contain separators,
  is not restored (`ReloadExact`), and accepted values are then accepted again
  (`ReloadKeepsAnswers`, `ReloadForgets`, `OverflowForgetsAll`): fourteen commands with
  UUIDs for values are enough (`UuidsOverflow`). A wrapped ring keeps its members but
  loses its age order (`ReloadForgetsOrder`, `WindowSurvivesReboot`), so that the newest
  command may be the next to be forgotten (`RebootForgetsNewer`).
- An ePaper cache tag outlives the image it names whenever a card is painted over it, or
  when an image arrives and fails to paint (`HonestExactly`). The server then answers
  "unchanged": an identify card stays up (`IdentifyCardStays`), and after a ghosting sweep
  the panel stays white (`SweptHonestExactly`, `SweptPanelStaysWhite`), which the comment
  at `src/capabilities/epaper_pm/epaper_pm_capability.cpp:1079-1082` means to prevent. A
  cadence of 2^32 - 1 minutes wraps the minutes counter past a sweep (`SweepExactly`,
  `WrappedCounterSkipsSweep`).
- Pin arbitration may switch off a capability needlessly: the one that took its pin may
  lose another pin later (`RemovalStands`, `NeedlessRemoval`).
- Version numbers of 2^32 or more are compared modulo 2^32 (`NumericExactly`).

Two places where the code and its documentation differ, and the model follows the code:
`src/boards/board_manifest.h:68-70` says that unsafe pins without explicit ownership
deactivate a capability, but the test at `src/boards/board_manifest.cpp:301` can never
fail, since the claim under test is itself the ownership it looks for (`SafelyOwned`).
`docs/contracts/error-codes.md:40` calls a replay what was "accepted or rejected" before;
the cache remembers accepted commands only.

## Model

| member | source | states |
|---|---|---|
| MqttOutbox.QueueBackoffMs | src/mqtt/mqtt_client.cpp:38-44 | the doubling loop yields 1000 * 2^attempts capped at 30000 |
| MqttOutbox.RetryQueue.constructor | src/mqtt/mqtt_client.cpp:256 | a cold boot holds what storage yields to an empty queue |
| MqttOutbox.RetryQueue.PersistCriticalQueue | src/mqtt/mqtt_client.cpp:1015-1035 | storage becomes exactly the image of the critical entries in queue order |
| MqttOutbox.RetryQueue.LoadCriticalQueue | src/mqtt/mqtt_client.cpp:1037-1072 | appends the readable stored entries while slots last, for any storage content |
| MqttOutbox.RetryQueue.EnqueueOutbound | src/mqtt/mqtt_client.cpp:949-986 | refuses, evicts the oldest noncritical or else the oldest entry, appends, and persists as the step function says |
| MqttOutbox.RetryQueue.ServiceOutboundQueue | src/mqtt/mqtt_client.cpp:988-1013 | offers exactly the due entries, once each and in queue order, and leaves the queue of one pass |
| MqttOutboxRuns.StepAgrees | src/mqtt/mqtt_client.cpp:949-1013 | one enqueue or service keeps storage equal to the critical entries |
| MqttOutboxRuns.StorageAlwaysAgrees | src/mqtt/mqtt_client.cpp:949-1035 | over any run storage holds the critical entries in queue order and nothing else |
| MqttOutboxRuns.PowerCycleRebuilds | src/mqtt/mqtt_client.cpp:1037-1072 | power-up rebuilds the critical subsequence with attempts reset; all of it if and only if every critical topic is under 160 bytes |
| MqttOutboxRuns.AgreesThroughPowerCuts | src/mqtt/mqtt_client.cpp:949-1072 | from a blank device through any number of power cuts storage agrees, for topics under 160 bytes |
| MqttOutboxRuns.RestartDuplicates | src/mqtt/mqtt_client.cpp:1135-1143 | a restart appends a second copy of the stored entries; storage still agrees if and only if nothing was appended |
| MqttOutboxRuns.RestartDuplicatesOne | src/mqtt/mqtt_client.cpp:1135-1143 | one critical entry is queued twice after a restart |
| MqttOutboxRuns.AgreesExactlyWhenSettled | src/mqtt/mqtt_client.cpp:949-1143 | over runs with restarts storage agrees if and only if no restart has appended anything since the last accepted critical enqueue or publish |
| MqttOutboxRuns.LongTopicIsLost | src/mqtt/mqtt_client.cpp:1049-1054 | a stored entry with a topic of 160 bytes or more is gone after a power cut |
| MqttOutboxRuns.PassFate | src/mqtt/mqtt_client.cpp:993-1011 | one pass drops exactly the accepted entries, leaves those not due, reschedules the rejected, each behind the survivors ahead of it |
| MqttOutboxRuns.MovedKeepsEntry | src/mqtt/mqtt_client.cpp:972-1010 | a survivor is unchanged at its new index, or rescheduled if it was rejected |
| MqttOutboxRuns.MovedKeepsOrder | src/mqtt/mqtt_client.cpp:972-1004 | survivors keep their order |
| MqttOutboxRuns.NothingElseAppears | src/mqtt/mqtt_client.cpp:949-1011 | the new queue holds survivors and at most one newcomer, last and fresh |
| MqttOutboxRuns.JourneyKeepsEntry | src/mqtt/mqtt_client.cpp:988-1011 | over a run an entry keeps topic, payload, retain and class, and its byte counter counts its rejections |
| MqttOutboxRuns.CountedWraps | src/mqtt/mqtt_client.cpp:1008 | the one-byte counter is the count modulo 256 |
| MqttOutboxRuns.JourneyKeepsOrder | src/mqtt/mqtt_client.cpp:949-1011 | over a run two surviving entries keep their order |
| MqttOutboxRuns.CriticalLeavesOnlySentOrOverflow | src/mqtt/mqtt_client.cpp:958-1007 | a critical entry that is gone left at a call that published it, or at one that queued a critical entry when eight critical ones were queued and it was the oldest |
| MqttOutboxRuns.BackoffCounterWraps | src/mqtt/mqtt_client.cpp:1008-1009 | the backoff of the wrapped count is that of the count n if and only if n < 256 or n mod 256 >= 5 |
| MqttOutboxRuns.RejectionDate | src/mqtt/mqtt_client.cpp:1008-1009 | the n-th rejection of an entry gives it the date of the capped doubling of n under exactly that condition |
| MqttOutboxRuns.DueExact | src/mqtt/mqtt_client.cpp:995 | an entry past its true date is offered exactly while the counter has moved on by less than half a turn, one ahead of its date is held back exactly while half a turn or less is to go |
| MqttOutboxRuns.ReloadedIsHeldBack | src/mqtt/mqtt_client.cpp:1064 | a reloaded entry is due exactly in the first half of a turn of the counter, and is otherwise left as it is |
| MqttOutboxCalls.EnqueueAppends | src/mqtt/mqtt_client.cpp:949-986 | a message is let in if and only if it has a topic, a payload below 768 and a slot; it is then last, due and fresh, and a full queue has given up its oldest noncritical entry, or its oldest |
| MqttOutboxCalls.OfferedAtTurn | src/mqtt/mqtt_client.cpp:993-1000 | every due entry is offered as it is, at its turn among the due ones |
| MqttOutboxCalls.OfferedOnlyDue | src/mqtt/mqtt_client.cpp:993-1000 | nothing else is offered |
| MqttOutboxCalls.SentCriticalMeans | src/mqtt/mqtt_client.cpp:1000-1012 | a pass writes to storage if and only if the broker accepted a critical entry |
| MqttOutboxCalls.WaitTable | src/mqtt/mqtt_client.cpp:38-44 | the waits are 1, 2, 4, 8, 16 and then 30 seconds |
| MqttOutboxCalls.RebootKeepsMessages | src/mqtt/mqtt_client.cpp:1015-1072 | with topics below 160 bytes a power cut keeps every critical message word for word and in order, and nothing else |
| MqttOutboxCalls.LoadFate | src/mqtt/mqtt_client.cpp:1037-1072 | from any storage, each readable entry below the claimed count that finds a slot comes back as stored, in order, and nothing else does |
| MqttOutboxCalls.NothingClaimed | src/mqtt/mqtt_client.cpp:1037-1045 | storage without a count brings back nothing |
| CabinetLock.LockController.ReadGpio | esp32c6-lock/main/lock_state.c:145-207 | each input is sampled from its own pin with its own debounce time |
| CabinetLock.LockController.Tick | esp32c6-lock/main/lock_state.c:493-588 | inputs, pulse and state machine advance as the step function says |
| CabinetLock.LockController.HandleUnlock | esp32c6-lock/main/lock_state.c:630-659 | accepted if and only if there is a token, no lockout and a valid signature; then actuates |
| CabinetLock.LockController.SetLockout | esp32c6-lock/main/lock_state.c:661-678 | entering ends a live pulse; clearing goes to SECURE or ALARM by the inputs |
| CabinetLock.LockController.StartCommissioning | esp32c6-lock/main/lock_state.c:680-689 | refused in lockout, otherwise enters COMMISSIONING |
| CabinetLock.LockController.AckInitialization | esp32c6-lock/main/lock_state.c:691-701 | refused in lockout, otherwise SECURE or ALARM by the inputs |
| CabinetLock.LockController.HandleEmergencyUnlock | esp32c6-lock/main/lock_state.c:703-713 | actuates from every state |
| CabinetLockRuns.AlwaysSafe | esp32c6-lock/main/lock_state.c:493-713 | SECURE implies closed and locked, ACCESSING is unreachable, LOCKOUT implies solenoid off, at every call boundary |
| CabinetLockRuns.TickSettles | esp32c6-lock/main/lock_state.c:507-588 | after a tick outside INITIALIZING, LOCKOUT and COMMISSIONING the state is SECURE exactly when closed and locked |
| CabinetLockRuns.LockoutExits | esp32c6-lock/main/lock_state.c:575-577 | a call leaves LOCKOUT if and only if it clears lockout or is an emergency unlock |
| CabinetLockRuns.LockoutIsSticky | esp32c6-lock/main/lock_state.c:630-701 | any run of the other calls stays in LOCKOUT with the solenoid off and no new suspension |
| CabinetLockRuns.OpeningRaisesAlarm | esp32c6-lock/main/lock_state.c:499-569 | after an actuation and ticks only, the last tick raises the door alarm if and only if it reads the door open and the tick before read it closed and locked; the pin is high if and only if no tick found the pulse over |
| CabinetLockRuns.AuthorisedOpeningAlarms | esp32c6-lock/main/lock_state.c:507-569 | a reachable run in which an accepted unlock ends in ALARM with the pin high |
| CabinetLockRuns.PinFollowsPulse | esp32c6-lock/main/lock_state.c:499-505 | with bounded tick gaps the pulse flag and start stamp are those of the live actuation |
| CabinetLockRuns.LiveIndexFinds | esp32c6-lock/main/lock_state.c:647-668 | the live actuation is the latest one with no later lockout and no tick 1500 ms after it |
| CabinetLockRuns.PulseExact | esp32c6-lock/main/lock_state.c:499-505 | the pin is high exactly while a pulse is due, in all runs with tick gap g, if and only if g + 1500 <= 2^32 |
| CabinetLockRuns.SuspensionsLeakByOverlap | esp32c6-lock/main/lock_state.c:649-707 | suspends minus resumes is one while the pin is high plus one for each overlapping actuation |
| CabinetLockRuns.SuspensionsBalance | esp32c6-lock/main/lock_state.c:499-707 | suspensions balance the pin if and only if no actuation found the pin high |
| CabinetLockRuns.OverlapLeaks | esp32c6-lock/main/lock_state.c:703-709 | two close unlocks leave a suspension behind after the pulse |
| CabinetLockInputs.FlipMeaning | esp32c6-lock/main/lock_state.c:145-207 | an input flips exactly when every sample since the last agreeing one differs and that one is old enough |
| CabinetLockInputs.DebounceFollowsIntent | esp32c6-lock/main/lock_state.c:149-161 | with bounded sample gaps the fold is the intended value and its stamp the last confirmation |
| CabinetLockInputs.DebounceExact | esp32c6-lock/main/lock_state.c:154-161 | that holds for all histories with gap g if and only if g plus the debounce time is at most 2^32 |
| CabinetLockInputs.InputsFollowPins | esp32c6-lock/main/lock_state.c:145-207 | in any run each input is the debounced history of its own pin |
| CabinetLockInputs.SecureMeansClosed | esp32c6-lock/main/lock_state.c:507-529 | SECURE implies that the raw reed and latch histories say closed and locked |
| CabinetLockCalls.TickFollowsTable | esp32c6-lock/main/lock_state.c:507-588 | every tick follows the transition table of state and debounced inputs, stamps a transition with its time and trigger, and leaves both alone without one, but for the overdue note of an unlocked lock |
| CabinetLockCalls.AlarmHolds | esp32c6-lock/main/lock_state.c:566-573 | ALARM lasts over every run of ticks that never reads closed and locked |
| CabinetLockCalls.AlarmEnds | esp32c6-lock/main/lock_state.c:566-573 | the tick that reads closed and locked is the one that ends it |
| CabinetLockCalls.ParkedStays | esp32c6-lock/main/lock_state.c:508-580 | INITIALIZING, LOCKOUT and COMMISSIONING outlast every run of ticks |
| CabinetLockCalls.OpenUntilMortise | esp32c6-lock/main/lock_state.c:532-551 | an unlocked lock that never reads closed goes to ALARM with the first tick that reads the mortise key, and stays UNLOCKED without one |
| CabinetLockCalls.CommandFollowsTable | esp32c6-lock/main/lock_state.c:630-713 | a refused command changes nothing, a granted one leads to its target with its trigger and time |
| CabinetLockCalls.PinNeedsAuthority | esp32c6-lock/main/lock_state.c:630-713 | in every run the pin is high only after an emergency unlock, or an unlock with a token and a valid signature outside LOCKOUT |
| CabinetLockCalls.WaitsForCommand | esp32c6-lock/main/lock_state.c:508-511 | after power-up ticks alone leave the lock in INITIALIZING with the pin low |
| HealthWatchdog.WatchdogManager.Begin | src/watchdog/watchdog_manager.cpp:108-123 | resets every record and keeps the enabled flags |
| HealthWatchdog.WatchdogManager.SetEnabled | src/watchdog/watchdog_manager.cpp:129-140 | enabling marks healthy, disabling clears overdue and busy |
| HealthWatchdog.WatchdogManager.MarkHealthy | src/watchdog/watchdog_manager.cpp:142-148 | restamps one record and clears its overdue state |
| HealthWatchdog.WatchdogManager.MarkBusy | src/watchdog/watchdog_manager.cpp:150-155 | busy and healthy |
| HealthWatchdog.WatchdogManager.MarkIdle | src/watchdog/watchdog_manager.cpp:157-162 | idle and healthy |
| HealthWatchdog.WatchdogManager.Suspend | src/watchdog/watchdog_manager.cpp:164-168 | one deeper, saturating at 255 |
| HealthWatchdog.WatchdogManager.Resume | src/watchdog/watchdog_manager.cpp:170-180 | one shallower, and at zero the busy records are restamped |
| HealthWatchdog.WatchdogManager.PublishWarning | src/watchdog/watchdog_manager.h:33-37 | each storage write that queueing a warning takes is one suspension and one resumption |
| HealthWatchdog.WatchdogManager.Tick | src/watchdog/watchdog_manager.cpp:182-227 | the sweep over all records, its restart and its feed of the task watchdog |
| HealthWatchdogRuns.AlwaysSane | src/watchdog/watchdog_manager.cpp:129-227 | in every reachable state disabled or busy subsystems are never overdue, a first-overdue stamp means overdue, recoveries never exceed warnings, and overdue means a first-overdue stamp if no tick read zero |
| HealthWatchdogRuns.AlwaysTruthful | src/watchdog/watchdog_manager.cpp:129-227 | every stamp is that of its event in every reachable state, whatever the later clock readings inside ticks |
| HealthWatchdogRuns.WrittenEffect | src/watchdog/watchdog_manager.h:33-37 | queueing a warning restarts the clocks of busy subsystems only, and costs a full suspension counter one level |
| HealthWatchdogRuns.WarningsSpread | src/watchdog/watchdog_manager.cpp:200-202 | warnings a and b of a subsystem, none before b stamped zero, are at least 60000 * (b - a) ms apart, recoveries or not |
| HealthWatchdogRuns.RestartIsJustified | src/watchdog/watchdog_manager.cpp:190-221 | a restart names an enabled idle subsystem at depth 0, overdue for 900000 ms and unhealthy for its timeout besides unless marked healthy after the reading that found it late; or one healed in that tick, when the counter reads 900000 |
| HealthWatchdogRuns.RestartJustifiedTogether | src/watchdog/watchdog_manager.cpp:184-221 | with links read at the tick's own reading, and callbacks that take time healing only subsystems the sweep has already reached, the restarted subsystem was unhealthy for its timeout and 900000 ms if and only if the callback did not heal it in that tick |
| HealthWatchdogRuns.RestartExact | src/watchdog/watchdog_manager.cpp:184-221 | restarts without healing keep the timeout and the 900000 ms, in all runs whose link readings lag by at most d and whose callbacks that take time heal only subsystems the sweep has already reached, if and only if d is zero |
| HealthWatchdogRuns.ReadLaterThenRestarted | src/watchdog/watchdog_manager.cpp:184-221 | a reachable run in which a reading one millisecond later makes the device restart 120000 ms too soon |
| HealthWatchdogRuns.RecoveryRestartsAnyway | src/watchdog/watchdog_manager.cpp:207-217 | after a successful recovery the tick restarts if and only if the counter reads 900000 or more |
| HealthWatchdogRuns.RecoveredThenRestarted | src/watchdog/watchdog_manager.cpp:207-221 | a reachable run in which a recovered subsystem restarts the device at once |
| HealthWatchdogRuns.LateIfReadLater | src/watchdog/watchdog_manager.cpp:184-194 | a link marked healthy in the tick is late when its sweep starts if and only if it is enabled, idle, and the second clock reading is later, by less than 2^32 ms less the timeout on the counter |
| HealthWatchdogRuns.WorkingLinkRestarts | src/watchdog/watchdog_manager.cpp:184-221 | with a warning due at depth 0 and a callback that heals, a tick with WiFi up restarts for WiFi if and only if WiFi is enabled, idle and marked healthy after the tick's reading, and the counter reads 900000 |
| HealthWatchdogRuns.WorkingLinkRestarted | src/watchdog/watchdog_manager.cpp:184-221 | a reachable restart with a working link |
| HealthWatchdogRuns.OverdueWithoutStamp | src/watchdog/watchdog_manager.cpp:196-197 | a late record ends without a first-overdue stamp if and only if the counter reads zero and it had none |
| HealthWatchdogRuns.ZeroReading | src/watchdog/watchdog_manager.cpp:196-201 | a reachable state that is overdue without a first-overdue stamp |
| HealthWatchdogRuns.ThrottleExact | src/watchdog/watchdog_manager.cpp:200 | a warning is due if and only if the counter has moved on by a minute or the last one was stamped zero; and exactly when that agrees with true minutes |
| HealthWatchdogRuns.ZeroStampReopensThrottle | src/watchdog/watchdog_manager.cpp:200 | a reachable run with two warnings a second apart |
| HealthWatchdogRuns.FullTurnHoldsBack | src/watchdog/watchdog_manager.cpp:200 | a reachable run in which a late subsystem gets no second warning 49 days after the first |
| HealthWatchdogRuns.NestingRestoresDepth | src/watchdog/watchdog_manager.cpp:164-180 | n nested sections restore the depth if and only if it started at zero or all fit the byte |
| HealthWatchdogRuns.SuspensionDefers | src/watchdog/watchdog_manager.cpp:204-217 | while suspended a sweep restarts nothing and heals nothing, and keeps the depth unless the counter is full |
| HealthWatchdogTicks.TickFate | src/watchdog/watchdog_manager.cpp:190-222 | unless the tick restarts for an earlier one, each idle subsystem that no other's callback heals is flagged, warned about, healed and restarted for exactly by its own record, whatever the others do |
| HealthWatchdogTicks.OverdueRestarts | src/watchdog/watchdog_manager.cpp:190-221 | once a subsystem has been overdue for 900000 ms with nothing suspended, the tick restarts for it or an earlier one |
| HealthWatchdogTicks.CallbackHealsOthers | src/watchdog/watchdog_manager.cpp:204-206 | a callback that marks another subsystem healthy ends its overdue state |
| HealthWatchdogTicks.FlagsAreLast | src/watchdog/watchdog_manager.cpp:32-40 | over any run each subsystem is enabled and busy as the last call that said so, and keeps its timeout |
| HealthWatchdogTicks.DisabledOrBusyLeftAlone | src/watchdog/watchdog_manager.cpp:129-192 | a disabled or busy subsystem is not overdue, and a further tick neither warns, recovers nor restarts for it |
| HealthWatchdogTicks.CallMarks | src/watchdog/watchdog_manager.cpp:108-180 | between ticks a record is marked healthy, cleared and reset by exactly the calls that say so |
| HealthWatchdogTicks.TickMarks | src/watchdog/watchdog_manager.cpp:182-188 | a tick starts by marking the links that are up, after a fresh start if there was none |
| HealthWatchdogTicks.SuspensionFeeds | src/watchdog/watchdog_manager.cpp:164-180 | suspending feeds the hardware watchdog, and so does the last resume |
| HealthWatchdogTicks.TickFeeds | src/watchdog/watchdog_manager.cpp:224-226 | a tick feeds it if and only if it does not restart and finds nothing overdue, or finds monitoring suspended |
| HealthWatchdogTicks.WarningWrites | src/watchdog/watchdog_manager.cpp:200-215 | a visit makes its storage writes exactly when it warns |
| HealthWatchdogTicks.LastWarningWrites | src/watchdog/watchdog_manager.cpp:217-221 | the restart is preceded by its own warning's writes |
| ReplayCache.ReplayGuard.ReplaySeen | src/security/command_validation.cpp:133-141 | the loop decides membership of the id or the nonce |
| ReplayCache.ReplayGuard.PersistReplayCache | src/security/command_validation.cpp:143-157 | storage becomes the text of the slots in use |
| ReplayCache.Parse | src/security/command_validation.cpp:175-187 | the token loop yields the first entries of the decoded text |
| ReplayCache.ReplayGuard.LoadReplayCache | src/security/command_validation.cpp:159-192 | loads once, fills free slots, sets the next slot from the count |
| ReplayCache.ReplayGuard.Validate | src/security/command_validation.cpp:307-379 | the verdict is the earliest failing check |
| ReplayCache.ReplayGuard.RememberAccepted | src/security/command_validation.cpp:381-391 | overwrites the next slot, advances and persists, including the partial write for a long nonce |
| ReplayCacheRuns.FirstCommandLoads | src/security/command_validation.cpp:303-308 | a boot's first command has the same effect on the loaded cache, so runs may start from it |
| ReplayCacheRuns.AcceptedExactly | src/security/command_validation.cpp:324-378 | accepted if and only if every check passes and neither id nor nonce is in the ring |
| ReplayCacheRuns.VerdictIsFirstFinding | src/security/command_validation.cpp:324-378 | the verdict is the refusal of the first failing check in the listed order |
| ReplayCacheRuns.RememberedOrNot | src/security/command_validation.cpp:381-391 | a refused or ill-sized command leaves no trace, an accepted one is in the next slot and in storage |
| ReplayCacheRuns.LongNonceHalfWrites | src/security/command_validation.cpp:381-391 | an accepted command with a nonce that does not fit leaves its id beside the nonce that was there |
| ReplayCacheRuns.LoadsOnce | src/security/command_validation.cpp:159-163 | later loads of a boot change nothing |
| ReplayCacheRuns.SeenMeansInWindow | src/security/command_validation.cpp:133-141 | membership in the ring is membership in the last sixteen accepted |
| ReplayCacheRuns.RememberedWindow | src/security/command_validation.cpp:381-391 | remembering a pair slides the window by one |
| ReplayCacheRuns.RunIsWindow | src/security/command_validation.cpp:307-391 | from any state that remembers a list, over any run, the ring is the window of the accepted list and storage its text |
| ReplayCacheRuns.AcceptedNeverRepeat | src/security/command_validation.cpp:362-391 | a list without repeats among seventeen consecutive pairs stays so over any run |
| ReplayCacheRuns.RefusedExactlyInWindow | src/security/command_validation.cpp:362-365 | a command matching the window is refused, and only such a one is called a replay |
| ReplayCacheRuns.DecodeEncode | src/security/command_validation.cpp:143-187 | clean entries come back from their text in order |
| ReplayCacheRuns.DecodedIsClean | src/security/command_validation.cpp:175-187 | nothing a load reads contains a separator |
| ReplayCacheRuns.EntryMeaning | src/security/command_validation.cpp:175-187 | a token is cut at its first comma, both parts to 71 characters, and dropped without one |
| ReplayCacheRuns.ReloadExact | src/security/command_validation.cpp:143-192 | a reload restores every entry in its slot if and only if the text fits 1024 bytes and no value contains a separator |
| ReplayCacheRuns.ReloadNextSlot | src/security/command_validation.cpp:188 | the next slot is restored if and only if the ring has not wrapped past slot zero |
| ReplayCacheRuns.ReloadKeepsAnswers | src/security/command_validation.cpp:143-192 | all membership answers are unchanged by a reload under exactly the same condition |
| ReplayCacheRuns.ReloadForgets | src/security/command_validation.cpp:143-192 | otherwise some accepted id or nonce is unknown after the reload |
| ReplayCacheRuns.OverflowForgetsAll | src/security/command_validation.cpp:159-192 | when the text is too long the reloaded cache calls no command a replay |
| ReplayCacheRuns.UuidsOverflow | src/security/command_validation.cpp:143-192 | after fourteen accepted commands with UUIDs and a reboot the last is accepted again |
| ReplayCacheRuns.ReloadForgetsOrder | src/security/command_validation.cpp:188 | the next acceptance then overwrites the oldest pair if and only if the count of accepted commands is a multiple of sixteen |
| ReplayCacheRuns.RebootForgetsNewer | src/security/command_validation.cpp:188 | a reachable run in which the seventeenth command is accepted again after a reboot and one more acceptance |
| ReplayCacheRuns.WindowSurvivesReboot | src/security/command_validation.cpp:143-192 | the exact condition under which the window continues across a reboot |
| ReplayCacheRuns.RebootsNeverRepeat | src/security/command_validation.cpp:143-391 | through any number of reboots under that condition no seventeen accepted commands in a row repeat an id or a nonce |
| EpaperWake.SaturatingDoubledInterval | src/capabilities/epaper_pm/epaper_pm_capability.cpp:915-926 | min(base * 2^exponent, cap) for every exponent, without overflow |
| EpaperWake.EpaperDevice.constructor | src/capabilities/epaper_pm/epaper_pm_capability.cpp:939-953 | RAM comes from storage with the documented defaults |
| EpaperWake.EpaperDevice.NextWakeIntervalForResult | src/capabilities/epaper_pm/epaper_pm_capability.cpp:955-990 | the interval of a result and its effect on the two counters |
| EpaperWake.EpaperDevice.PersistWakeState | src/capabilities/epaper_pm/epaper_pm_capability.cpp:928-937 | the five persisted values and nothing else change in storage |
| EpaperWake.EpaperDevice.ClearImageCache | src/capabilities/epaper_pm/epaper_pm_capability.cpp:553-561 | tag and unchanged count are dropped in RAM and storage |
| EpaperWake.EpaperDevice.FetchImage | src/capabilities/epaper_pm/epaper_pm_capability.cpp:752-853 | result, new tag and paint by the server's reply |
| EpaperWake.EpaperDevice.Tick | src/capabilities/epaper_pm/epaper_pm_capability.cpp:1028-1111 | one cycle per boot: its new state, the tag it sends and the sleep it requests |
| EpaperWakeRuns.SleepKeepsState | src/capabilities/epaper_pm/epaper_pm_capability.cpp:928-953 | the RAM state at the end of a cycle is what the next boot reads back |
| EpaperWakeRuns.UpdateLeavesNoTrace | src/capabilities/epaper_pm/epaper_pm_capability.cpp:1039-1040 | a wake that an update cuts short by a restart leaves the state as it was |
| EpaperWakeRuns.UnchangedCountsRun | src/capabilities/epaper_pm/epaper_pm_capability.cpp:961-966 | the unchanged counter is the length of the maximal trailing run of unchanged results since the last cache clear |
| EpaperWakeRuns.FailuresCountRun | src/capabilities/epaper_pm/epaper_pm_capability.cpp:982-986 | the failure counter is the length of the maximal trailing run of errors |
| EpaperWakeRuns.NeverBoth | src/capabilities/epaper_pm/epaper_pm_capability.cpp:955-990 | the two counters are never both nonzero |
| EpaperWakeRuns.SleepFollowsRun | src/capabilities/epaper_pm/epaper_pm_capability.cpp:955-1110 | min(configured * 2^(k-1), 720) after k unchanged, min(15 * 2^(j-1), 240) after j errors, at least 5, and stored as slept |
| EpaperWakeRuns.MinutesAreOwed | src/capabilities/epaper_pm/epaper_pm_capability.cpp:1034-1110 | the minutes counter is the sum of the scheduled intervals since the last sweep, modulo 2^32 |
| EpaperWakeRuns.SweepExactly | src/capabilities/epaper_pm/epaper_pm_capability.cpp:1072-1091 | a wake at the fetch ends below 1440 minutes and sweeps exactly on command or when the counter reads a day; that is a true day except where the counter has wrapped to below one |
| EpaperWakeRuns.WrappedCounterSkipsSweep | src/capabilities/epaper_pm/epaper_pm_capability.cpp:1039-1077 | a reachable run in which a sweep that is due does not come |
| EpaperWakeRuns.FetchSweeps | src/capabilities/epaper_pm/epaper_pm_capability.cpp:1077-1091 | a sweep clears the cache and asks for the image without a tag |
| EpaperWakeRuns.HonestExactly | src/capabilities/epaper_pm/epaper_pm_capability.cpp:1053-1097 | after any run the held tag names what the panel shows if and only if the stated conditions on the last wake's state, branch and reply hold |
| EpaperWakeRuns.IdentifyCardStays | src/capabilities/epaper_pm/epaper_pm_capability.cpp:1063-1067 | a reachable run in which an identify card stays up under an unchanged reply |
| EpaperWakeRuns.SweptHonestExactly | src/capabilities/epaper_pm/epaper_pm_capability.cpp:1079-1091 | after a sweep the tag is truthful if and only if the reply did not bring a tag whose image failed to paint |
| EpaperWakeRuns.SweptPanelStaysWhite | src/capabilities/epaper_pm/epaper_pm_capability.cpp:1079-1091 | a reachable run in which the panel stays white after a sweep under an unchanged reply |
| EpaperWakeRuns.UnchangedIsTrue | src/capabilities/epaper_pm/epaper_pm_capability.cpp:763-778 | from an honest state an unchanged reply to a tag means the panel shows that image |
| EpaperWakeBranches.FactoryState | src/capabilities/epaper_pm/epaper_pm_capability.cpp:939-953 | a device from the factory holds the documented defaults |
| EpaperWakeBranches.BranchFates | src/capabilities/epaper_pm/epaper_pm_capability.cpp:1045-1071 | the card and the result of each branch without an image request |
| EpaperWakeBranches.FetchFates | src/capabilities/epaper_pm/epaper_pm_capability.cpp:752-853 | result, panel, tag and sleep for every reply of the server |
| EpaperWakeBranches.DoublingStep | src/capabilities/epaper_pm/epaper_pm_capability.cpp:915-926 | each further step doubles an interval until the cap holds it |
| EpaperWakeBranches.TagWithoutQuotes | src/capabilities/epaper_pm/epaper_pm_capability.cpp:797-801 | one pair of quotes is taken off a tag, anything else is kept |
| EpaperWakeBranches.RetiredIsLast | src/capabilities/epaper_pm/epaper_pm_capability.cpp:1053-1071 | over any history the display is retired as the last command that said so, or not after a reset |
| EpaperWakeBranches.RetirementLasts | src/capabilities/epaper_pm/epaper_pm_capability.cpp:1057-1071 | after a retiring wake no wake without reprieve sends a request or shows an image |
| EpaperWakeBranches.ReprieveEnds | src/capabilities/epaper_pm/epaper_pm_capability.cpp:1053-1056 | a reprieve ends it at once |
| EpaperWakeBranches.CadenceIsLast | src/capabilities/epaper_pm/epaper_pm_capability.cpp:417-426 | the cadence is the last one set, never below five minutes |
| EpaperWakeBranches.ResetForgets | src/capabilities/epaper_pm/epaper_pm_capability.cpp:1045-1052 | a factory reset forgets everything but its own card |
| EpaperWakeBranches.CommandsSurvivePowerLoss | src/capabilities/epaper_pm/epaper_pm_capability.cpp:545-561 | a cleared cache, a retirement and a cadence are in storage at once |
| BoardPins.OwnerHasPin | src/boards/board_manifest.cpp:189-196 | decides whether some claim gives the owner that pin |
| BoardPins.SafelyOwned | src/boards/board_manifest.cpp:301-304 | the unsafe-pin test passes for every claim of the table |
| BoardPins.CheckActiveCapabilityPins | src/boards/board_manifest.cpp:275-329 | no flag is newly set or kept against the board, the survivors are the arbitrated ids, nobody without an earlier rival is switched off, no two active nodes with different ids claim one pin, and true exactly when no flag changed |
| BoardPins.ArbitrationSeparates | src/boards/board_manifest.cpp:305-323 | afterwards no two active owners claim the same pin |
| BoardPins.RemovalJustified | src/boards/board_manifest.cpp:305-323 | a removed owner lost a pin to an earlier claimant that was active to begin with |
| BoardPins.RemovalStands | src/boards/board_manifest.cpp:305-323 | a removed owner clashes with a survivor if and only if switching it on again and checking once more would change something |
| BoardPins.NeedlessRemoval | src/boards/board_manifest.cpp:290-323 | three owners of whom one survives although two are free of conflict |
| BoardPins.UnchangedIffFree | src/boards/board_manifest.cpp:290-328 | arbitration changes nothing if and only if there is no conflict |
| BoardPins.ArbitrationSettles | src/boards/board_manifest.cpp:290-328 | a second check changes nothing |
| MeterFraming.ValidateChecksum | src/capabilities/power_relay/power_relay.cpp:243-250 | the running 8-bit sum decides the checksum |
| MeterFraming.MeterReceiver.ParsePacket | src/capabilities/power_relay/power_relay.cpp:252-283 | header and checksum errors counted, otherwise the raw readings taken |
| MeterFraming.MeterReceiver.ServiceMeterSerial | src/capabilities/power_relay/power_relay.cpp:291-313 | one service call takes the timeout and then every waiting byte |
| MeterFraming.ReadU24 | src/capabilities/power_relay/power_relay.cpp:172-174 | the value whose little-endian base-256 digits are the three bytes |
| MeterFramingRuns.U24RoundTrip | src/capabilities/power_relay/power_relay.cpp:172-201 | three bytes written least significant first read back as the value |
| MeterFramingRuns.EveryByteAccounted | src/capabilities/power_relay/power_relay.cpp:285-313 | junk, packets, dropped partials and the held bytes, in order, spell the whole stream |
| MeterFramingRuns.AlwaysAtRest | src/capabilities/power_relay/power_relay.cpp:252-313 | between calls the buffer is short and starts with the header, and each counter counts its kind of segment |
| MeterFramingRuns.PacketsAreSamplesOrErrors | src/capabilities/power_relay/power_relay.cpp:252-282 | samples plus checksum errors is the number of completed packets |
| MeterFramingRuns.CorruptionRejected | src/capabilities/power_relay/power_relay.cpp:243-262 | a valid packet with one byte changed is not valid |
| MeterFramingRuns.CorruptedPacketNeverSampled | src/capabilities/power_relay/power_relay.cpp:291-313 | in any state, after a silence, no sample is taken from it, whichever byte was changed and however the bytes are spread over calls within the timeout |
| MeterFramingRuns.FrameRoundTrip | src/capabilities/power_relay/power_relay.cpp:172-184 | a well-formed frame is accepted and reads back as its readings, negative power included |
| MeterFramingRuns.PacketTaken | src/capabilities/power_relay/power_relay.cpp:291-313 | in any state, after a silence, headerless junk and a packet spread over calls within the timeout leave one packet parsed and nothing held |
| MeterFramingRuns.FrameAfterJunkIsSampled | src/capabilities/power_relay/power_relay.cpp:297-311 | such a frame gives exactly one more sample with its readings |
| MeterFramingCalls.ChecksumMeaning | src/capabilities/power_relay/power_relay.cpp:243-250 | the checksum holds if and only if 0x58, the address and all 23 bytes add up to 255 modulo 256 |
| MeterFramingCalls.AcceptedExactly | src/capabilities/power_relay/power_relay.cpp:252-262 | a packet is a sample by its length, its header and that sum |
| MeterFramingCalls.FrameAddsUp | src/capabilities/power_relay/power_relay.cpp:243-250 | every frame of a meter has that sum |
| MeterFramingCalls.AlwaysReports | src/capabilities/power_relay/power_relay.cpp:252-311 | in every run the meter holds the readings of the last accepted packet and reports what last became of any bytes |
| MeterFramingCalls.PartialCountsFromFirst | src/capabilities/power_relay/power_relay.cpp:285-311 | a partial packet counts from the call that brought its first byte |
| MeterFramingCalls.DropExactly | src/capabilities/power_relay/power_relay.cpp:285-296 | it is dropped if and only if more than 300 ms have passed since |
| VersionOrder.CompareVersion | src/ota/ota_updater.cpp:77-92 | the two-cursor scan is the zero-padded lexicographic order on the digit-run numbers as 32 bits hold them |
| VersionOrder.CompareZero | src/ota/ota_updater.cpp:77-92 | equal means equal number by number with zeros for what is missing |
| VersionOrder.CompareDecides | src/ota/ota_updater.cpp:77-92 | a list is below another if and only if it has the smaller number at the first difference |
| VersionOrder.NonDigitsSeparate | src/ota/ota_updater.cpp:80-82 | anything that is not a digit only separates |
| VersionOrder.DigitsAreNumber | src/ota/ota_updater.cpp:83-86 | every run of digits is one number |
| VersionOrder.CompareTransitive | src/ota/ota_updater.cpp:77-92 | the order is transitive, and equal only if equal throughout |
| VersionOrder.OrderTransitive | src/ota/ota_updater.cpp:77-92 | the firmware's comparison is a total preorder on all strings |
| VersionOrder.FieldsOfRendered | src/ota/ota_updater.cpp:81-86 | reading a rendered version gives its numbers back |
| VersionOrder.NumericExactly | src/ota/ota_updater.cpp:83-88 | the answer is the numeric one against all fitting versions if and only if the numbers fit 32 bits |
| VersionOrder.IsPolicyAllowed | src/ota/ota_updater.cpp:210-243 | each of the six decisions by the first failing gate, in order |
| VersionOrder.GatesAreAnInterval | src/ota/ota_updater.cpp:211-220 | the versions admitted by minimum and maximum form an interval |

## Left out

- Sockets, TLS, HTTP, Wi-Fi, BLE, camera, inference and panel drawing: their outcomes are parameters.
- ECDSA, base64, JWT and JSON parsing: authentication is one boolean, timestamps arrive parsed.
- NVS write failures and power loss inside one persist: each completed persist replaces the stored map or text.
- Null C strings in queue, claim and capability tables: strings are values, and a null topic is the empty one.
- The status LED of the lock and the telemetry snapshots: output without influence on the state.
- The duplicate C files of esp32c6-lock for MQTT, command validation, watchdog and updates: each core is modelled once, from the C++ file.
- The deadline field of an update policy: the code only logs it.
- Float conversions of meter values: the raw integers are what the model keeps.
- The desired-state document and the update poll of the ePaper wake: their effects arrive as flags and a cadence.
- ReplayCache.Parse: gathers the entries of a text before `Fill` writes them, where the code writes each as it finds it; no one sees the cache in between.
- HealthWatchdog.WatchdogManager.Tick: warning and recovery counts are unbounded, where the code's 32-bit counts would wrap after thousands of years of warnings a minute apart.
