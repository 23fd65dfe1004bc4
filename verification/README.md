# Sandstar engine: a verified model

This project models the deterministic control core of the Sandstar building-automation engine and
the small protocols around it, and proves what they promise over every input, every run and every
reachable state. `dafny verify dfyconfig.toml` checks all of it.

The main results, by theme:

- **Write path.** The 17-level priority array with its cached index equals a plain scan. Over any
  run of reads, level writes, relinquishes, timer expiries and poll and control cycles, with any
  write outcomes, the last command sent to each output is the encoding of its effective value; with
  no level held nothing is sent and the last command stands; and all of it is a function of the
  history of writes alone. A target holds that command exactly when the last write got through or
  it held it before. Control loops cannot disturb an operator override; when the
  override ends, the output follows the loop's current output again.
- **Readings and commands in plain terms.** Which line a read asks and what it shows for the answer,
  which command a value becomes, and what a control cycle writes for its setpoint and feedback are
  stated in arithmetic of their own, apart from the functions that compute them.
- **Poll cycle.** Coalesced I2C polling refines plain polling and reads each sensor once; change
  notices are exact, so subscribers mirror the recorded values over any number of cycles.
- **Sensor recovery.** The shared exponential backoff is exact, its failure count is the history of
  attempt outcomes, and a failed channel gets its next attempt within 301 of its own reads under any
  interleaving.
- **Control arithmetic.** The control law, two-run monotonicity, bounds and anti-windup of the PID,
  lifted to whole histories of control cycles; the sequencer is a counter; each timer equals a
  definition over its history.
- **Conversion.** Table lookup and its inverse on sorted and unsorted tables, and the exact
  conditions under which convert and revert undo each other.
- **Kernels.** The calendar formula, CRC-8 error detection, the SCRAM exchange of RFC 5802 (with
  SHA-256 as in RFC 7677), and the watch delta protocol.

How it is laid out:

| modules | source |
|---|---|
| `EngineTypes`, `Priority`, `Channels`, `FlowSensors`, `EngineCore`, `Readings`, `Engine` | value types, `priority.rs`, `channel.rs`, `engine.rs` |
| `EngineFrames`, `EngineRuns`, `WritePath`, `Delivery`, `Recovery` | what operations leave alone, and results over runs of `engine.rs` |
| `Subscriptions`, `PollCycle`, `Notifications` | `poll.rs`, `watch.rs`, `notify.rs`, `poll_update` |
| `Control`, `LoopLaws`, `Pid`, `Sequencer`, `Components` | `control.rs`, `pid.rs`, `sequencer.rs`, `components.rs` |
| `Table`, `ValueConv` | `table.rs`, `value.rs` |
| `Calendar`, `Timestamps`, `Crc8`, `Text`, `Scram`, `AuthState`, `WatchProtocol` | `alerts.rs`, `crc.rs` and `i2c.rs`, `auth.rs`, `cmd_handler.rs` |

Objects that the source updates in place are classes (`Engine`, `PriorityArray`, `PidController`,
`LeadSequencer`, the timers, the stores, `WatchServer`, `ControlRunner`); each method is proved
against a function on values, and the theorems are about those functions. An `f64` is a `real`, an
`Instant` a number of nanoseconds. The hardware is an oracle `World`, indexed by the number of
earlier requests, so that it may answer the same request differently each time unless a lemma asks
for steadiness; what was asked of it is kept in append-only logs. Random values, the clock and the
iteration order of hash maps are parameters.

Where comments and code differ, the model follows the code:

- A fresh PID with an integral term outputs 0 at its first call, not `out_min`
  (`Pid.FirstOutput` says when that is in range).
- `revert` stores the un-scaled, un-offset value in `cur`, not the clamped one
  (`ValueConv.RevertedCurIff` says when the two agree).
- The last valid value of a flow channel is a converted value, yet it replaces a bad raw reading
  (`FlowSensors.ReplacementIff` and `FlowSensors.GarbageReconverts` say when that does no harm).
- `channel_write_level` changes the array before it learns that the channel is not writable
  (`WritePath.ErrorsAndTheArray`).
- The limit of 256 channels holds per request, not per watch (`WatchProtocol.ChannelLimitIff`).
- The session limit does not hold for a limit of 0 (`AuthState.ZeroLimitExceeded`).
- Formatted time stamps stop sorting like instants after the year 9999 (`Timestamps.TextOrderIff`).
- With only one end of the raw range configured, convert and revert scale by different spans
  (`ValueConv.RangeRoundTrip`).

## Model

| member | source | states |
|---|---|---|
| `Priority.EffectiveIsHighest` | crates/sandstar-engine/src/priority.rs:145-165 | the effective value is that of the first level holding one, with its number; level 0 exactly when no level holds a value |
| `Priority.EffectiveAgrees` | crates/sandstar-engine/src/priority.rs:145-153 | arrays that agree down to a held level have the same effective value, whatever lies below it |
| `Priority.ScanFromActive` | crates/sandstar-engine/src/priority.rs:156-165 | the scan finds the first non-null level, or the last slot when there is none |
| `Priority.ExpireCompose` | crates/sandstar-engine/src/priority.rs:179-200 | sweeping at t1 and then at a later t2 equals sweeping at t2 |
| `Priority.ExpireLeavesNoneDue` | crates/sandstar-engine/src/priority.rs:179-200 | after a sweep no held value has a passed deadline |
| `Priority.ExpireNothingDue` | crates/sandstar-engine/src/priority.rs:179-200 | a sweep that finds nothing due leaves the array as it was |
| `Priority.EntryMeans` | crates/sandstar-engine/src/priority.rs:94-105 | a write stores its value, at most 16 characters of its author, and a deadline exactly for a value with positive duration |
| `Priority.TimedDue` | crates/sandstar-engine/src/priority.rs:94-105 | a timed write of d seconds is due exactly when d·10^9 nanoseconds have passed, to the nearest one |
| `Priority.TimedGone` | crates/sandstar-engine/src/priority.rs:179-200 | the first sweep at or after the deadline empties the level, and no earlier one does |
| `Priority.PriorityArray.constructor` | crates/sandstar-engine/src/priority.rs:60-70 | a new array holds nothing and its cached index is valid |
| `Priority.PriorityArray.Set` | crates/sandstar-engine/src/priority.rs:75-137 | the cached index stays the scan result (`Valid`), one level is replaced, and the returned `WriteResult` is that of a full scan, in every cache shortcut |
| `Priority.PriorityArray.GetEffective` | crates/sandstar-engine/src/priority.rs:145-153 | the cached answer is the scan answer |
| `Priority.PriorityArray.RecalculateActive` | crates/sandstar-engine/src/priority.rs:156-165 | re-establishes the cached index from any levels |
| `Priority.PriorityArray.Clear` | crates/sandstar-engine/src/priority.rs:168-173 | every level is empty and the cache is valid |
| `Priority.PriorityArray.ExpireTimedLevels` | crates/sandstar-engine/src/priority.rs:179-200 | exactly the due levels are emptied, the cache is valid, and the flag tells whether there were any |
| `WritePath.RunAgrees` | crates/sandstar-engine/src/engine.rs:453-696 | hardware agreement over runs, with any write outcomes: after any sequence of reads, level writes, relinquishes and sweeps, each enabled digital, triac or PWM output with an effective value v was last sent the command that the write path makes of v; wiring and tuning of outputs are unchanged |
| `WritePath.FreshAgrees` | crates/sandstar-engine/src/engine.rs:111-125 | an engine without priority arrays starts in agreement |
| `WritePath.LevelWriteSends` | crates/sandstar-engine/src/engine.rs:567-616 | a level write sends exactly one command, that of the level then effective, if there is one and the channel is an enabled driven output, and otherwise none |
| `WritePath.WriteOutput` | crates/sandstar-engine/src/engine.rs:483-525 | the command for x in plain arithmetic: x limited, unscaled and un-offset, then stretched over the range, reversed through the table or set to an end, and cut to the range; a PWM output gets that raw value as duty, a pin is on above one half |
| `WritePath.WriteStores` | crates/sandstar-engine/src/engine.rs:483-555 | what the channel shows after a write: 0 or 1 for a pin outside ADC mode, else raw and base value; Down exactly when the write was lost |
| `WritePath.VirtualStores` | crates/sandstar-engine/src/engine.rs:526-534 | a virtual channel stores the base value and sends nothing |
| `WritePath.RawWriteSends` | crates/sandstar-engine/src/engine.rs:483-525 | a write flagged raw only is converted first, one flagged both is sent as it is |
| `WritePath.WriteGuards` | crates/sandstar-engine/src/engine.rs:453-482 | a value without flags is refused, a disabled channel answers Disabled, an unknown one is an error; none of them changes anything |
| `Delivery.NothingSentWhileEmpty` | crates/sandstar-engine/src/engine.rs:567-696 | over runs: while no level of an output holds a value, by relinquish or expiry, nothing at all is sent to its target, so what it was sent before stands |
| `Delivery.CommandAfterAnyRun` | crates/sandstar-engine/src/engine.rs:453-696 | the last command after any run, level held or not: the encoding of the value effective at the latest moment there was one, or what stood before the run if there never was; a function of the history alone |
| `Delivery.ApplySends` | crates/sandstar-engine/src/engine.rs:251-696 | any operation that leaves an output without an effective value sends nothing to its target |
| `Delivery.SweepSends` | crates/sandstar-engine/src/engine.rs:653-696 | a sweep that leaves a channel without a value sends nothing to its target, in whatever order and however often channels are swept |
| `Delivery.TargetHoldsIff` | crates/sandstar-engine/src/engine.rs:525-555 | with lost writes: the target holds the command of the effective value if and only if the last write sent to it got through or it held that command before |
| `Delivery.LostWrite` | crates/sandstar-engine/src/engine.rs:525-555 | a run with a lost write: the output is commanded on and the target holds nothing; writing the level again heals it |
| `Delivery.SharedTargetIff` | crates/sandstar-engine/src/engine.rs:567-616 | two outputs on one target: a level write that drives one leaves the other in agreement if and only if both effective values make the same command |
| `Delivery.SharedPinOverwrites` | crates/sandstar-engine/src/engine.rs:567-616 | a run in which a channel still shows on while its pin, shared with another channel, was last sent off |
| `WritePath.ErrorsAndTheArray` | crates/sandstar-engine/src/engine.rs:567-616 | an unknown channel or a level outside 1..17 is refused and changes nothing; otherwise the array is written first, and the write fails if and only if a level is then held on a channel that cannot be driven; a failing write changes nothing if and only if the array already was the written one |
| `Delivery.FailingWriteStays` | crates/sandstar-engine/src/engine.rs:594-612 | a write to level 8 of an input channel fails and leaves its value in the array |
| `WritePath.LevelsAreHistory` | crates/sandstar-engine/src/engine.rs:567-696 | after any run each level holds its latest write, unless a later sweep came at or after that write's deadline |
| `WritePath.CommandIsHistory` | crates/sandstar-engine/src/engine.rs:453-696 | the last command sent to an output is the encoding of the winning level, where winner and value are computed from the history of writes and sweeps alone |
| `WritePath.LowWritersCannotInterfere` | crates/sandstar-engine/src/engine.rs:567-616 | while a level at or above n wins, the output's command is what it would be had nobody written below n |
| `WritePath.RecordedExact` | crates/sandstar-engine/src/engine.rs:567-696 | a level in closed form: it holds its latest write, timed or permanent, exactly while no later sweep of the channel came at or after that write's deadline, and is empty otherwise |
| `WritePath.RecordedLatest` | crates/sandstar-engine/src/engine.rs:567-616 | a permanent write is what its level holds until the level is written again, through any sweeps |
| `WritePath.ExpireChannelAgrees` | crates/sandstar-engine/src/engine.rs:653-696 | expiry on one channel re-drives its best remaining level and keeps every target in agreement, whatever the write outcome |
| `Control.ControlRunner.Execute` | crates/sandstar-server/src/control.rs:315-444 | one cycle changes runner and engine exactly as a run of plain reads and level writes does, loops first, errors ignored |
| `Control.ControlRunner.ExecuteLoop` | crates/sandstar-server/src/control.rs:321-415 | one loop: skipped unless feedback is Ok and the setpoint is readable; otherwise PID, staging and writes at its level |
| `Control.ControlRunner.ExecuteOne` | crates/sandstar-server/src/control.rs:417-443 | one component: inputs read, state stepped, output written at its level |
| `Control.ControlRunner.ReadInputChannels` | crates/sandstar-server/src/control.rs:489-509 | current values of the inputs in order, 0 for unknown channels |
| `Control.ControlRunner.SetEnabled` | crates/sandstar-server/src/control.rs:462-476 | the first loop of the name, or else the first component, is switched and nothing else; false exactly when there is none |
| `Control.CycleOps` | crates/sandstar-server/src/control.rs:315-444 | every operation of a cycle is a plain read or a permanent write at a configured channel and level |
| `Control.CycleKeepsConfig` | crates/sandstar-server/src/control.rs:315-444 | a cycle changes no output list, level or staging |
| `Control.OverrideSurvivesControl` | crates/sandstar-server/src/control.rs:315-444 | override non-interference: for any history with any number of control cycles, while somebody else's level above every control level of the channel holds a value, the output's command is the one it would have had if the runner had never run |
| `Control.LevelShowsLoop` | crates/sandstar-server/src/control.rs:372-415 | in every history, from start-up on: from the loop's first write its level always holds the loop's output (PID output or stage), through skipped cycles, overrides and sweeps; before it the output is the initial one |
| `Control.CycleHolds` | crates/sandstar-server/src/control.rs:372-415 | a cycle that writes the level leaves the loop's new output in it, and one that does not leaves output and level as before |
| `Control.ReleaseShowsLoop` | crates/sandstar-server/src/control.rs:315-444 | when every better level is empty again, by relinquish or expiry, and the loop has written its level, the last command is that of the loop's current output |
| `Control.ReleaseShowsLatest` | crates/sandstar-engine/src/engine.rs:567-696 | for any writer: the best remaining level commands its latest write, timed or permanent, while no sweep at or after its deadline has come |
| `LoopLaws.LoopLaw` | crates/sandstar-server/src/control.rs:321-415 | a loop sits out, writing nothing, exactly when disabled, its feedback is missing or not Ok, or its setpoint missing; else its PID steps on setpoint and feedback, and the output goes to the first channel or, through the stages, as 1 or 0 to one channel each |
| `LoopLaws.WrittenValue` | crates/sandstar-server/src/control.rs:321-415 | where no limit bites, the value written is kp·err + kd·(err − previous)/dt + integral or bias, err being setpoint minus feedback (reversed under reverse action) |
| `LoopLaws.LoopMonotone` | crates/sandstar-server/src/control.rs:321-415 | a higher setpoint or lower feedback never gives a lower output or fewer stages; the other way round under reverse action |
| `LoopLaws.HistoriesMonotone` | crates/sandstar-server/src/control.rs:315-415 | the same over any two histories with equal cycle times, through skipped cycles, limits and stages, whatever else happens to the engines |
| `LoopLaws.InputsAre` | crates/sandstar-server/src/control.rs:489-509 | each input of a component is what its channel shows after the earlier ones were read, 0 if there is none |
| `LoopLaws.ComponentLaw` | crates/sandstar-server/src/control.rs:417-443 | an enabled component reads its inputs and writes its result at its level; a disabled one does nothing |
| `LoopLaws.TimersPutOut` | crates/sandstar-server/src/control.rs:593-607 | the timers as components put out 1 or 0 by their definitions over the history of their first input channel |
| `PollCycle.CoalescingRefines` | crates/sandstar-engine/src/engine.rs:708-974 | with hardware steady during the cycle, `poll_update` ends in the engine state, poll items and notification list of a loop of plain `channel_read` calls in the same order (only the log of hardware reads differs) |
| `PollCycle.ReadSame` | crates/sandstar-engine/src/engine.rs:732-909 | a read served from a faithful cache has the result and effect of the plain read |
| `PollCycle.OneReadPerSensor` | crates/sandstar-engine/src/engine.rs:708-724 | a cycle that starts with no failed enabled polled I2C channel makes exactly one I2C read per distinct (device, address, label) of its enabled polled I2C channels |
| `PollCycle.ReadsAhead` | crates/sandstar-engine/src/engine.rs:708-724 | in any state reading ahead asks exactly the sensors of the enabled, healthy polled I2C channels, each once, and keeps the answers |
| `Readings.HardwareRead` | crates/sandstar-engine/src/engine.rs:292-362 | a healthy channel asks for exactly its own line, by device, address and label; without an answer it is failed and Down, otherwise the answer goes through the pipeline, pins as one or zero |
| `Readings.NeutralRead` | crates/sandstar-engine/src/engine.rs:292-429 | without settings and filters a pin reads 1 exactly for a non-zero answer, other channels the answer cut to 0..4096; Down without an answer |
| `Readings.PipelineIs` | crates/sandstar-engine/src/engine.rs:364-429 | the stages of a reading in order: garbage replaced, settings detected, converted, jumps refused, filtered; the trigger fires on zero |
| `Readings.SpikeIsJump` | crates/sandstar-engine/src/channel.rs:176-191 | a spike is a drop from beyond 50 to below 1, or a growth to more than five times the baseline |
| `Readings.CachedRead` | crates/sandstar-engine/src/engine.rs:826-840 | an I2C channel with its answer at hand asks nobody and uses that answer |
| `Readings.DisabledPwmRead` | crates/sandstar-engine/src/engine.rs:337-344 | a switched-off PWM output reads raw 0 and asks nobody |
| `Readings.NoRead` | crates/sandstar-engine/src/engine.rs:251-275 | an unknown channel is the only error; a disabled one says so and is left alone |
| `Readings.VirtualRead` | crates/sandstar-engine/src/engine.rs:292-330 | a virtual channel shows its stored value while a level is held, else its source channel, else 0 |
| `Readings.VirtualShowsWritten` | crates/sandstar-engine/src/engine.rs:292-330 | a level written to a virtual channel is what its next read shows, as base value |
| `EngineRuns.PollIsRun` | crates/sandstar-engine/src/engine.rs:919-974 | a poll cycle is a run of sweep, read-ahead and reads, so all run results cover it |
| `EngineRuns.RunKeepsSetup` | crates/sandstar-engine/src/engine.rs:251-974 | no run changes which channels exist, the tables, or a channel's wiring |
| `EngineFrames.ReadTouchesOnly` | crates/sandstar-engine/src/engine.rs:251-429 | a read changes only its own channel's measured state and sends no command |
| `EngineFrames.WriteTouchesOnly` | crates/sandstar-engine/src/engine.rs:453-555 | a write changes only its own channel's value and the command log |
| `EngineFrames.ExpireAllKeeps` | crates/sandstar-engine/src/engine.rs:653-696 | a sweep changes only values, priorities and the command log |
| `Channels.SpikeCheck` | crates/sandstar-engine/src/channel.rs:168-197 | the value let through is the new baseline; it is replaced exactly when the check is armed and it is a spike |
| `Channels.OutputsNeverJump` | crates/sandstar-engine/src/channel.rs:168-197 | for any run of readings of a flow channel, no two successive outputs from the third on form a spike unless the earlier one is zero |
| `FlowSensors.ProcessBaseline` | crates/sandstar-engine/src/channel.rs:146-197 | the last valid value after a reading is the converted value, or the older one if the check refuses it |
| `FlowSensors.ReplacementIff` | crates/sandstar-engine/src/channel.rs:146-161 | after a good reading, a bad raw reading is replaced by that reading if and only if conversion left it unchanged (or, if it was refused as a spike, the older baseline equals it) |
| `FlowSensors.GarbageReconverts` | crates/sandstar-engine/src/channel.rs:146-197 | over a run of bad readings the last valid value stands still if and only if conversion returns it or the check refuses the result each time: conversion is applied to its own results |
| `FlowSensors.ReplacementDiffers` | crates/sandstar-engine/src/channel.rs:146-161 | with an offset of 1, a bad reading after a reading of 10 enters as 11 |
| `Engine.Engine.ChannelRead` | crates/sandstar-engine/src/engine.rs:251-429 | recovery, sensing, conversion and storing, equal to the read function with an empty cache |
| `Engine.Engine.ChannelReadCached` | crates/sandstar-engine/src/engine.rs:732-909 | the same with cached I2C results |
| `Engine.Engine.TryI2cRecovery` | crates/sandstar-engine/src/engine.rs:130-230 | counter, reinit attempt and shared backoff, step by step equal to the recovery function |
| `Engine.Engine.ChannelWrite` | crates/sandstar-engine/src/engine.rs:453-555 | completion of the value, encoding, command, stored value and every error |
| `Engine.Engine.ChannelWriteLevel` | crates/sandstar-engine/src/engine.rs:567-616 | array updated first, then the effective value driven |
| `Engine.Engine.ExpirePriorityTimers` | crates/sandstar-engine/src/engine.rs:653-696 | sweep in the given order, re-driving where something expired |
| `Engine.Engine.PreReadI2cChannels` | crates/sandstar-engine/src/engine.rs:708-724 | the cache of reads ahead |
| `Engine.Engine.PollUpdate` | crates/sandstar-engine/src/engine.rs:919-974 | the whole cycle with its notifications |
| `Notifications.CycleNotesExact` | crates/sandstar-engine/src/engine.rs:928-973 | the notices of a cycle are, each once, those owed: for every polled channel whose (status, cur) changed, one per watcher of it and one per global subscriber |
| `Notifications.SubscriberMirrors` | crates/sandstar-engine/src/engine.rs:928-973 | over any number of cycles, with any reads, writes, sweeps and control cycles in between, a subscriber that replays its notices holds the status and cur last recorded |
| `Subscriptions.NotesExact` | crates/sandstar-engine/src/watch.rs:57-78 | one change gives one notice to each watcher and each global subscriber and none to others |
| `Subscriptions.FailCountBounded` | crates/sandstar-engine/src/engine.rs:936-948 | the failure count stays below its threshold |
| `Subscriptions.UnchangedIsStreak` | crates/sandstar-engine/src/poll.rs:106-120 | the unchanged count is the number of equal values since the last change |
| `Subscriptions.FailuresModuloFive` | crates/sandstar-engine/src/engine.rs:936-948 | failures in a row are counted modulo five |
| `Subscriptions.PollStore.Add` | crates/sandstar-engine/src/poll.rs:47-53 | afterwards exactly the old channels and this one are polled; known items keep their values and counters, a new one starts empty |
| `Subscriptions.PollStore.Remove` | crates/sandstar-engine/src/poll.rs:56-59 | afterwards exactly the other channels are polled, with their items unchanged |
| `Subscriptions.PollStore.Record` | crates/sandstar-engine/src/poll.rs:106-120 | new last value, counters, and whether (status, cur) changed |
| `Subscriptions.PollStore.Fail` | crates/sandstar-engine/src/engine.rs:936-948 | the count advances and starts over at the threshold |
| `Subscriptions.SubscriberStore.AddWatch` | crates/sandstar-engine/src/watch.rs:31-46 | added exactly when new, so entries never repeat |
| `Subscriptions.SubscriberStore.RemoveWatch` | crates/sandstar-engine/src/watch.rs:49-54 | exactly that entry goes, and the flag says whether it was there |
| `Subscriptions.SubscriberStore.AddNotify` | crates/sandstar-engine/src/notify.rs:26-32 | added exactly when new |
| `Subscriptions.SubscriberStore.RemoveNotify` | crates/sandstar-engine/src/notify.rs:35-42 | exactly that entry goes |
| `Recovery.RunKeeps` | crates/sandstar-engine/src/engine.rs:33-81 | every operation keeps: each backoff has cooldown min(30*2^failures, 300), healthy channels have counter 0, and no counter exceeds 300 |
| `Recovery.ReachableRecoveryOk` | crates/sandstar-engine/src/engine.rs:33-81 | hence in every state reachable from a freshly configured engine |
| `Recovery.AttemptWithin301Reads` | crates/sandstar-engine/src/engine.rs:130-230 | under any interleaving with other operations, a failed enabled I2C channel gets a reinit attempt within 301 of its own reads |
| `Recovery.ExactGap` | crates/sandstar-engine/src/engine.rs:130-230 | one channel with failing reinits: after k failures exactly min(30*2^k, 300)+1 reads make the next attempt and fewer make none |
| `Recovery.AttemptSchedule` | crates/sandstar-engine/src/engine.rs:130-230 | the m-th attempt of a sensor that never returns falls exactly on the sum of those gaps |
| `Recovery.AttemptOutcome` | crates/sandstar-engine/src/engine.rs:160-230 | a due attempt: on failure one more failure is counted and the read is Down; on success the sensor has no failures and cooldown 30 for every channel on it, and the read goes on |
| `Recovery.WaitingRead` | crates/sandstar-engine/src/engine.rs:130-158 | before that a read only counts and is Down |
| `Recovery.FailuresAreHistory` | crates/sandstar-engine/src/engine.rs:160-230 | after any run the failure count of a sensor is the number of its failed attempts since the last successful one, whichever channels made them |
| `Recovery.FreshFailure` | crates/sandstar-engine/src/engine.rs:130-230 | the first failure of a sensor without failures gets its attempt on read 31 exactly |
| `Recovery.RecoveryStartsOver` | crates/sandstar-engine/src/engine.rs:130-230 | so does the next failure after a recovery, however often it had failed before |
| `Recovery.PlainRetry` | crates/sandstar-engine/src/engine.rs:130-158 | a failed channel of another kind is never reinitialised and tries the hardware again after 30 reads |
| `Pid.PidController.Execute` | crates/sandstar-engine/src/pid.rs:86-172 | the new state and output, through skipping, anti-windup, clamping and rate limit |
| `Pid.PidController.Reset` | crates/sandstar-engine/src/pid.rs:180-186 | back to the state of a new controller |
| `Pid.RunMonotone` | crates/sandstar-engine/src/pid.rs:86-172 | two runs with kd=0, kp and ki non-negative, equal configurations and times: pointwise ordered errors give ordered integrals and outputs at every call; under reverse action the order of the deviations flips |
| `Pid.BoundsAfterComputing` | crates/sandstar-engine/src/pid.rs:104-172 | after every computing call the output, and for ki≠0 the integral, lie in [out_min, out_max] |
| `Pid.RunSettled` | crates/sandstar-engine/src/pid.rs:104-172 | over a whole run output and integral never leave [out_min, out_max] once in it, and the output travels at most max_delta per computing call |
| `Pid.ComputesIff` | crates/sandstar-engine/src/pid.rs:86-114 | a call computes exactly when enabled, initialised and the interval and some time have passed; otherwise nothing changes |
| `Pid.ControlLaw` | crates/sandstar-engine/src/pid.rs:116-172 | the law of a computing call: error, integral clamped after growing by ki·err·dt/60, output on its way to kp·err + kd·(err − previous)/dt + integral or bias |
| `Pid.UnlimitedOutput` | crates/sandstar-engine/src/pid.rs:116-172 | where no limit bites, integral and output are the law itself |
| `Pid.IntegralIsSum` | crates/sandstar-engine/src/pid.rs:125-135 | over a run that stays in range the integral is the sum of ki·err·dt/60 over its computing calls |
| `Pid.WorkedExamples` | crates/sandstar-engine/src/pid.rs:116-172 | four steps in numbers: both actions, slope and reset |
| `Pid.StepWithinMaxDelta` | crates/sandstar-engine/src/pid.rs:153-164 | a step stays within a positive max_delta if and only if the old output was within max_delta of the output range |
| `Pid.RateLimitIsClamp` | crates/sandstar-engine/src/pid.rs:153-164 | the rate limit is a clamp around the old output followed by the output limits |
| `Pid.AntiWindup` | crates/sandstar-engine/src/pid.rs:104-135 | with ki>0, 60(out_max-out_min)/(ki·e·τ) computing calls with error at most -e bring the integral to out_min, however long it was saturated |
| `Pid.FirstOutput` | crates/sandstar-engine/src/pid.rs:92-102 | the first output is the clamped bias for ki=0 and otherwise 0, in range if and only if 0 is |
| `Sequencer.LeadSequencer.constructor` | crates/sandstar-engine/src/sequencer.rs:31-45 | the stage count is clamped to 1..16 and all stages are off |
| `Sequencer.LeadSequencer.Run` | crates/sandstar-engine/src/sequencer.rs:48-69 | every stage follows its two thresholds; an empty range changes nothing |
| `Sequencer.LeadSequencer.ActiveCount` | crates/sandstar-engine/src/sequencer.rs:77-79 | the number of on-stages |
| `Sequencer.LeadSequencer.SetNumStages` | crates/sandstar-engine/src/sequencer.rs:84-88 | clamped count, all stages off |
| `Sequencer.ExecuteIsCounter` | crates/sandstar-engine/src/sequencer.rs:48-69 | a step maps the on-count c to max(lo, min(c, hi)), lo and hi counting the on-thresholds below and the off-thresholds not above the input |
| `Sequencer.ReachableIsPrefix` | crates/sandstar-engine/src/sequencer.rs:48-79 | every reachable stage vector is a prefix of on-stages as long as `active_count`, even if range or hysteresis change between calls |
| `Sequencer.NoRapidCycling` | crates/sandstar-engine/src/sequencer.rs:48-69 | inputs spanning at most band width times hysteresis switch each stage at most once in the whole run |
| `Sequencer.StageLaw` | crates/sandstar-engine/src/sequencer.rs:54-67 | stage i of n turns on above in_min + i·(in_max − in_min)/n, off a dead band below, else stays |
| `Sequencer.StagesMonotone` | crates/sandstar-engine/src/sequencer.rs:48-69 | a larger input never turns fewer stages on |
| `Components.DelayOn.Execute` | crates/sandstar-engine/src/components.rs:325-350 | one call, equal to the step function; a disabled timer stands still |
| `Components.DelayOff.Execute` | crates/sandstar-engine/src/components.rs:384-410 | one call, equal to the step function; a disabled timer stands still |
| `Components.OneShot.Execute` | crates/sandstar-engine/src/components.rs:444-462 | one call, equal to the step function |
| `Components.DelayOnIsHistory` | crates/sandstar-engine/src/components.rs:325-350 | on if and only if the current unbroken true streak began at an earlier call at least the delay ago |
| `Components.DelayOffIsHistory` | crates/sandstar-engine/src/components.rs:384-410 | on if and only if the input is, or was before a false streak that has not lasted the delay between two calls |
| `Components.OneShotIsHistory` | crates/sandstar-engine/src/components.rs:444-462 | on if and only if the latest rising edge is younger than the duration |
| `Components.EvaluateSchedule` | crates/sandstar-engine/src/components.rs:694-730 | the value of the governing entry (latest passed, last listed among equals), or the default when disabled or none has passed |
| `Components.GovernorUnique` | crates/sandstar-engine/src/components.rs:694-730 | at most one entry governs |
| `Components.MillisAtLeast` | crates/sandstar-engine/src/components.rs:325-350 | timers count whole milliseconds |
| `Components.MinutesOrder` | crates/sandstar-engine/src/components.rs:658-660 | entries are ordered by hour, then by minute |
| `Table.BinarySearchIncreasing` | crates/sandstar-engine/src/table.rs:363-377 | the loop computes the interval of the halving search |
| `Table.BinarySearchDecreasing` | crates/sandstar-engine/src/table.rs:380-393 | the same for falling tables |
| `Table.TableLookup` | crates/sandstar-engine/src/table.rs:256-303 | the code path of lookup, with no division by zero on any table |
| `Table.TableReverseLookup` | crates/sandstar-engine/src/table.rs:308-359 | the scanning loop of reverse lookup |
| `Table.LookupInRange` | crates/sandstar-engine/src/table.rs:256-303 | for any table of two or more values, sorted or not, and min≤max, the result lies in [min, max] |
| `Table.SearchIsScanRising` | crates/sandstar-engine/src/table.rs:363-377 | on a rising table the search finds the interval a linear scan finds |
| `Table.SearchIsScanFalling` | crates/sandstar-engine/src/table.rs:380-393 | the same on a falling table |
| `Table.Interpolates` | crates/sandstar-engine/src/table.rs:256-303 | inside the table the result is linear in the fractional position of raw in an interval that contains it |
| `Table.LookupMonotone` | crates/sandstar-engine/src/table.rs:256-303 | lookup in a table as loaded (direction from its ends) is monotone if the table rises and antitone if it falls |
| `Table.ReverseOfLookup` | crates/sandstar-engine/src/table.rs:308-359 | for min<max, reverse lookup of lookup is raw cast to an integer inside the table and the near end value outside, sorted or not |
| `Table.ReverseLookupTotal` | crates/sandstar-engine/src/table.rs:308-359 | reverse lookup answers if and only if the table has two or more values |
| `Table.AsI64Truncates` | crates/sandstar-engine/src/table.rs:340-352 | the cast gives the whole number next to x on the side of zero |
| `ValueConv.FaultIff` | crates/sandstar-engine/src/value.rs:252-352 | a conversion faults if and only if a table has no range or the reading is within 2% of an end |
| `ValueConv.GoodWithinLimits` | crates/sandstar-engine/src/value.rs:117-180 | every Ok reading, sensor curves included, lies within the output limits |
| `ValueConv.RangeRoundTrip` | crates/sandstar-engine/src/value.rs:186-246 | without a table, revert of convert gives the raw value clamped to [low, high] if and only if both ends are configured or neither, or the spans agree, or it is 0 |
| `ValueConv.TableRoundTrip` | crates/sandstar-engine/src/value.rs:186-246 | through a table, outside the fault margins, revert of convert gives the integer cast of raw (the near end value outside the table) clamped to the raw range |
| `ValueConv.AdcRoundTrip` | crates/sandstar-engine/src/value.rs:186-352 | in ADC mode without adjustments, revert then convert gives 1 exactly for positive cur on a non-empty range, else 0; a table without a range faults |
| `ValueConv.UntransformUndoes` | crates/sandstar-engine/src/value.rs:186-212 | taking off limits, scale and offset undoes a transform the limits did not change |
| `ValueConv.GoodReading` | crates/sandstar-engine/src/value.rs:252-352 | a good reading in plain arithmetic: raw cut to the range; 0 or 1 around its middle in ADC mode, the table answer, the share of the span or the raw value, then offset, scale and limits |
| `ValueConv.FaultShows` | crates/sandstar-engine/src/value.rs:252-300 | a faulty reading shows the output limit of the end it is at |
| `ValueConv.SensorReading` | crates/sandstar-engine/src/value.rs:117-180 | a sensor curve works on the non-negative raw value; with everything configured its result is scaled over the span, offset and limited, else only limited |
| `ValueConv.RevertIs` | crates/sandstar-engine/src/value.rs:186-246 | revert in plain arithmetic, for range, table and threshold channels |
| `ValueConv.RangeReadBack` | crates/sandstar-engine/src/value.rs:117-246 | for a range, converting what revert made gives back the value, where neither limits nor ends cut it |
| `ValueConv.RevertedCurIff` | crates/sandstar-engine/src/value.rs:182-246 | revert writes back the limited value x if and only if x = (x + offset) * scale, an absent or zero scale counting as one |
| `ValueConv.RevertedCurDiffers` | crates/sandstar-engine/src/value.rs:182-246 | with an offset of 1, writing 5 stores 4 |
| `Calendar.DayZero` | crates/sandstar-server/src/alerts.rs:688-701 | day 0 is 1970-01-01 |
| `Calendar.DaysToYmdNext` | crates/sandstar-server/src/alerts.rs:688-701 | every day is a valid date, and day n+1 is the Gregorian next day of day n under the 4/100/400 rule |
| `Calendar.CountsFromEpoch` | crates/sandstar-server/src/alerts.rs:688-701 | day n is n calendar steps after 1970-01-01 |
| `Calendar.YearOfEraBounds` | crates/sandstar-server/src/alerts.rs:693-695 | the closed formula finds the March-based year that contains the day |
| `Calendar.StrictlyIncreasing` | crates/sandstar-server/src/alerts.rs:688-701 | later days are later dates |
| `Calendar.InverseLeft` | crates/sandstar-server/src/alerts.rs:688-701 | the inverse day count undoes it |
| `Calendar.InverseRight` | crates/sandstar-server/src/alerts.rs:688-701 | every valid date from 1970 on is produced, by its own day count |
| `Calendar.StampsOrdered` | crates/sandstar-server/src/alerts.rs:669-685 | later instants have later stamp fields |
| `Calendar.StampInverse` | crates/sandstar-server/src/alerts.rs:669-685 | the stamp fields are in clock range and determine the instant |
| `Timestamps.TextOrderIff` | crates/sandstar-server/src/alerts.rs:669-685 | for s<t the formatted texts sort like the instants if and only if they show the same year or their year texts sort so |
| `Timestamps.TextOrder` | crates/sandstar-server/src/alerts.rs:669-685 | through the year 9999 the texts sort like the instants |
| `Timestamps.EpochText` | crates/sandstar-server/src/alerts.rs:669-685 | second 0 is `1970-01-01 00:00:00 UTC` |
| `Timestamps.TextOrderBreaks` | crates/sandstar-server/src/alerts.rs:669-685 | the last second of 9999 sorts after the first of 10000 |
| `Timestamps.TextDeterminesInstant` | crates/sandstar-server/src/alerts.rs:669-685 | equal texts come from equal instants, in every year |
| `Crc8.SensirionCrc8` | crates/sandstar-hal-linux/src/crc.rs:23-42 | the nested loops compute the fold of the byte step |
| `Crc8.CrcLinear` | crates/sandstar-hal-linux/src/crc.rs:23-42 | the checksum is XOR-linear in (data, init) for every length |
| `Crc8.AppendedCrcGivesZero` | crates/sandstar-hal-linux/src/crc.rs:23-42 | an appended byte gives checksum 0 if and only if it is the CRC |
| `Crc8.ByteChangeDetected` | crates/sandstar-hal-linux/src/crc.rs:23-42 | a change in any one byte changes the CRC |
| `Crc8.BurstDetected` | crates/sandstar-hal-linux/src/crc.rs:23-42 | a burst of at most 8 bits anywhere changes the CRC |
| `Crc8.CrcParity` | crates/sandstar-hal-linux/src/crc.rs:23-42 | the CRC has the parity of message and start value |
| `Crc8.OddFlipsRejected` | crates/sandstar-hal-linux/src/i2c.rs:433-473 | a word with an odd number of flipped bits is rejected |
| `Crc8.TwoFlipsIff` | crates/sandstar-hal-linux/src/crc.rs:23-42 | in a message of any length, two flipped bits leave the CRC unchanged if and only if their distance is a multiple of 127 places |
| `Crc8.PeriodIff` | crates/sandstar-hal-linux/src/crc.rs:29-38 | the shift register returns to a single low bit exactly after multiples of 127 shifts |
| `Crc8.FewFlipsRejected` | crates/sandstar-hal-linux/src/i2c.rs:368-380 | minimum distance four: a valid three-byte word with one, two, three or any odd number of different bits flipped is rejected |
| `Crc8.Sdp810RejectsBursts` | crates/sandstar-hal-linux/src/i2c.rs:433-473 | an accepted 9-byte SDP810 frame hit by one burst of at most 8 bits anywhere, also across words, is rejected |
| `Crc8.Sdp510RejectsBursts` | crates/sandstar-hal-linux/src/i2c.rs:368-380 | the same for the 3-byte SDP510 frame |
| `Crc8.DataSheetVector` | crates/sandstar-hal-linux/src/crc.rs:23-42 | CRC of BE EF from FF is 92 |
| `Crc8.Sdp810Reads` | crates/sandstar-hal-linux/src/i2c.rs:433-480 | every frame with good checksums gives pressure and temperature as the signed numbers of its first two words |
| `Crc8.Sdp510Reads` | crates/sandstar-hal-linux/src/i2c.rs:368-386 | every frame with a good checksum gives its word as an unsigned number |
| `Scram.ParseClientFirstLoop` | crates/sandstar-server/src/auth.rs:172-197 | the field loop of the first-message parser |
| `Scram.ParseClientFinalLoop` | crates/sandstar-server/src/auth.rs:235-273 | the field loop of the final-message parser |
| `Scram.ClientFirstRecovered` | crates/sandstar-server/src/auth.rs:172-197 | the parser recovers name, nonce and bare text of a client-first message |
| `Scram.ServerFirstFields` | crates/sandstar-server/src/auth.rs:214-222 | the server-first message splits into exactly its nonce, salt and iteration fields |
| `Scram.ClientFinalRecovered` | crates/sandstar-server/src/auth.rs:235-273 | the parser recovers nonce, proof and the signed text of a final message, even if the proof text contains `p=` |
| `Scram.HonestFinalMessage` | crates/sandstar-server/src/auth.rs:573-636 | the client reads nonce, salt and iteration count back and signs the text the server will check |
| `Scram.Completeness` | crates/sandstar-server/src/auth.rs:280-327 | an honest client's final message for an unexpired handshake is accepted, for arbitrary HMAC, hash and PBKDF2 |
| `Scram.AcceptedIff` | crates/sandstar-server/src/auth.rs:280-327 | accepted if and only if in time, well formed, with both nonces, and hiding under this exchange's signature a preimage of the stored key |
| `Scram.AuthMessageIs` | crates/sandstar-server/src/auth.rs:280-301 | the text both sides sign is the fields of client-first, server-first and client-final, joined by commas |
| `Scram.SignedTextSplits` | crates/sandstar-server/src/auth.rs:280-301 | it splits back into exactly those seven fields |
| `Scram.ExchangeWrittenOut` | crates/sandstar-server/src/auth.rs:573-636 | the proof is, byte by byte, HMAC(salted, "Client Key") XOR HMAC(H(client key), text), and the answer HMAC(HMAC(salted, "Server Key"), text), as in section 3 of RFC 5802 |
| `Scram.HandshakeLife` | crates/sandstar-server/src/auth.rs:155-158 | a handshake expires after exactly 30 seconds |
| `Scram.FirstParsesIff` | crates/sandstar-server/src/auth.rs:172-197 | a first message parses exactly with the header `n,,`, a name and a nonce |
| `Scram.FinalParsesIff` | crates/sandstar-server/src/auth.rs:235-273 | a final message parses exactly with binding, nonce and a decodable proof not in first place |
| `Scram.ClientChecksNonce` | crates/sandstar-server/src/auth.rs:573-606 | a client answers no server nonce that does not begin with its own |
| `AuthState.HonestLogin` | crates/sandstar-server/src/auth.rs:448-506 | in any run: once an honest first message is taken, and whatever happens with other tokens until then, the honest final message in time opens a session for that user and uses up the token |
| `AuthState.SingleUse` | crates/sandstar-server/src/auth.rs:481-506 | over any run each issue of a handshake token allows one check of a final message, so at most one session |
| `AuthState.SessionLimit` | crates/sandstar-server/src/auth.rs:361-390 | in every reachable state the store is within its limit of at least 1, failed and successful completions alike |
| `AuthState.ZeroLimitExceeded` | crates/sandstar-server/src/auth.rs:361-390 | with a limit of 0 the run of one honest login exceeds it |
| `AuthState.SessionsAreEarned` | crates/sandstar-server/src/auth.rs:481-506 | every live session was opened by an accepted proof for its user |
| `AuthState.SessionLife` | crates/sandstar-server/src/auth.rs:338-390 | a session is valid for exactly a day |
| `AuthState.MakeRoomTakes` | crates/sandstar-server/src/auth.rs:361-375 | making room takes sessions only at capacity, and then only expired ones and the victim |
| `AuthState.StaleOnesGo` | crates/sandstar-server/src/auth.rs:437-478 | beginning a login or cleaning up removes exactly the stale handshakes, cleaning up also the stale sessions |
| `AuthState.BeginsIff` | crates/sandstar-server/src/auth.rs:448-478 | a login begins exactly for a well-formed first message of a known user |
| `AuthState.SessionStore.CreateSession` | crates/sandstar-server/src/auth.rs:361-390 | at capacity expired sessions go, then an oldest one; the limit is kept |
| `AuthState.SessionStore.ValidateToken` | crates/sandstar-server/src/auth.rs:393-395 | valid exactly for a live, unexpired token |
| `AuthState.SessionStore.ExpireStale` | crates/sandstar-server/src/auth.rs:398-400 | exactly the sessions whose expiry lies ahead stay, unchanged |
| `AuthState.Authenticator.BeginScram` | crates/sandstar-server/src/auth.rs:448-478 | handshake stored under the token, stale ones dropped, errors change nothing |
| `AuthState.Authenticator.CompleteScram` | crates/sandstar-server/src/auth.rs:481-506 | the token is used up in every case; a session exactly for an accepted proof |
| `WatchProtocol.WatchServer.WatchSub` | crates/sandstar-server/src/cmd_handler.rs:205-283 | stale watches expire, limits, creation or reuse, initial rows |
| `WatchProtocol.WatchServer.WatchUnsub` | crates/sandstar-server/src/cmd_handler.rs:285-309 | close, or drop channels with their remembered values |
| `WatchProtocol.WatchServer.WatchPoll` | crates/sandstar-server/src/cmd_handler.rs:311-348 | the rows that changed, or all on refresh |
| `WatchProtocol.WatchServer.ExpireStaleWatches` | crates/sandstar-server/src/cmd_handler.rs:62-76 | exactly the watches idle for no more than the lease stay, unchanged |
| `WatchProtocol.ClientsMirror` | crates/sandstar-server/src/cmd_handler.rs:205-348 | for every run of subscribe, poll, unsubscribe and periodic expiry, a client that applies the returned rows holds exactly the server's `last_values` of its live watch |
| `WatchProtocol.ReachableOk` | crates/sandstar-server/src/cmd_handler.rs:205-348 | in every state reachable by those commands and the periodic expiry, at most 64 watches live, channels are listed once, remembered values belong to subscribed channels, and ids were handed out by the counter |
| `WatchProtocol.NewNameIsFresh` | crates/sandstar-server/src/cmd_handler.rs:235-260 | a new watch id never equals a live one |
| `WatchProtocol.PollMatches` | crates/sandstar-server/src/cmd_handler.rs:311-348 | after a poll every readable channel matches its reading in status and within EPSILON; unreadable ones are as before |
| `WatchProtocol.ClientMatchesPoll` | crates/sandstar-server/src/cmd_handler.rs:311-348 | after a poll in any run the client's view matches every reading the poll got, in status and within EPSILON, with no drift |
| `WatchProtocol.PollRowsExact` | crates/sandstar-server/src/cmd_handler.rs:311-348 | a poll sends a row, with the reading, exactly for channels that could be read and are new, differ in status or by more than EPSILON, or are refreshed |
| `WatchProtocol.SubMatches` | crates/sandstar-server/src/cmd_handler.rs:262-280 | subscribing remembers the reading of every channel that could be read |
| `WatchProtocol.ExistingExact` | crates/sandstar-server/src/cmd_handler.rs:228-234 | exactly the existing channels are subscribed |
| `WatchProtocol.SubRefusedIff` | crates/sandstar-server/src/cmd_handler.rs:211-245 | refused exactly for more than 256 channels, or for a watch that is not live while 64 are |
| `WatchProtocol.UnsubDrops` | crates/sandstar-server/src/cmd_handler.rs:285-309 | unsubscribing drops exactly the named channels and their values, closing the watch |
| `WatchProtocol.LeaseRenewed` | crates/sandstar-server/src/cmd_handler.rs:62-76 | polling or subscribing renews the lease of an hour |
| `WatchProtocol.ChannelLimitIff` | crates/sandstar-server/src/cmd_handler.rs:215-226 | a watch stays within 256 channels if and only if its old channels and the new ones of the request do: the limit is per request |
| `WatchProtocol.ChannelLimitExceeded` | crates/sandstar-server/src/cmd_handler.rs:215-226 | the run of two accepted subscriptions, 256 channels and then one more, gives a watch of 257 |

## Left out

- Linux drivers, watchdog, signals, TLS, HTTP routes, command line, e-mail, logging and metrics: input, output and plumbing; the hardware interface stays as an oracle.
- IPC framing and serialisation: the codec is a library.
- SHA-256, HMAC, PBKDF2 and base64: arbitrary functions; of base64 only the round trip and a comma-free alphabet are used. Random generation is a parameter, so unpredictability of tokens and nonces is not stated.
- The text of error messages: SCRAM and watch errors are told apart by short labels, not by the original wording.
- Filters, the SDP610 sensor curves and sensor auto-detection: arbitrary functions of one channel's state, its configuration and the tables.
- Channel loading and reload, table files and slots, tags: configuration plumbing.
- Rounding, NaN and infinity of `f64`.
- The panic of `clamp` on inverted bounds: a precondition of the PID; in conversion, where the original panics for `low` above `high` (value.rs:235 and 266) and for `min` above `max` with a sensor curve, the model goes on with a value, so the results about conversion, reading and writing speak of the original only for bounds in order.
- Wrap-around of 32- and 64-bit counters (poll counters, watch counter, retry counters), which would need billions of steps.
- Time is constant within one engine operation, one poll cycle and one control cycle.
- Hash-map iteration order: the orders of the sweep and of the polled channels are parameters, and each result holds for every order.
- The engine's channels hold the levels of the priority array without its cached index; `Priority.PriorityArray` is proved to agree with that form.
- Loops and components of the runner hold PID, sequencer and timer states as values, stepped by the functions the classes are proved against.
- Components other than the three timers are an arbitrary step on their own memory inside the runner; their arithmetic (sums, gates, ramp, thermostat, hysteresis) is settled by single lines. Both daily schedules are modelled on their own.
- `WritePath.RunAgrees`: for outputs with distinct targets and conversion settings that auto-detection leaves alone; for shared targets see `Delivery.SharedTargetIff`.
- `Control.LevelShowsLoop`: about loops; for a component `Control.ReleaseShowsLatest` states that its latest write is commanded.
- Alert bookkeeping and the history ring buffer: easy next to the rest.
