# ODrive host controller: a verified model

This project models the host side of the ODrive controller in `odrive_hardware_interface` and proves
what it guarantees. It has three layers.

* **The control cycle of each joint**: `read()`, `write()`, the claim and release protocol of the mode
  switch, and the lifecycle calls of `ODriveHardwareInterface`, with the rate limiter, the validator,
  the mode switch, the setpoint write and the telemetry read. The transport is an arbitrary function
  from everything that happened to the next answer, so every theorem holds for every behaviour of the
  bus and the drives.
* **The I/O thread**: the second implementation of the same cycle, and the mailbox and stop/join
  handshake around it, as all interleavings of lock regions, notifications and transport operations.
* **The USB transport**: the sticky error latch, the matching of devices to serial numbers with the
  ownership of their handles, packets and sequence numbers.

The code that updates fields is written as classes and loops (`Interface`, `IoThread`, `Mailbox.AsyncIo`,
`UsbObject`, `Transport.Bus`); each method is proved equal to a function of the old state (modules
`Cycle`, `Worker`, `Mailbox`, `Usb`), the guarantees are lemmas about these functions and about
sequences of calls (`Runs`), and the entry points of the classes carry those that concern one call. What
each operation puts on the wire and makes of the answers is said independently of these functions, in
registers, words, literal values and interface keys (`Telemetry`, `Masking`, `Turns`, `Commands`,
`Lifecycle`, `Keys`, `Ends`, `Routing`).

A double is an exact real, NaN or an infinity. Time is the period argument of `write()`. Registers are
32-bit words read as int32 where the code does. Axis numbers are 0 or 1 and no two joints share an
axis where a theorem needs it (`DistinctAxes`); rates are non-negative where a theorem needs it.

## Where the code differs from its documentation

* `docs/safety-design.md` puts the check for NaN and infinity before rate limiting. The code limits
  first, so an infinite command becomes a finite step whenever a rate limit applies
  (`Motion.NotFinitePosition`).
* The same document says a read timeout concerns one joint. In the code TIMEOUT and NO_DEVICE end the
  read for all joints, and the USB transport latches them until the next activation
  (`Outage.OutageLasts`).
* The retries it describes apply only during activation and only to errno values; the statuses of the
  USB transport are libusb codes, none of whose transfer errors is retried
  (`Transport.UsbErrorsAreFinal`).

## What turned out not to hold

* A failed release leaves a joint claimed with its watchdog off: `Claims.SwitchJointClaim` says
  exactly when, `Claims.ReleaseCanFail` gives such a bus, and `Claims.ClaimInvariant` is exact over
  runs. Given a level again, the joint enters closed loop unguarded (`Claims.ReentryUnguarded`).
* `invert_axis` mixes the frames of joint and motor in four places. The limiter baseline: when the
  slew bound holds (`Inverted.InvertedSlew`), which starts ever reach a target
  (`Inverted.ArrivalExact`) and which targets are kept (`Inverted.SettlesExact`) are said exactly. The
  discontinuity check: `Frozen.InvertedStandstill`, exact, and `Frozen.InvertedNeverRecovers` over
  runs. Mode switch priming: `Bumpless.PrimedPosition`, exact. The negation of the exported command in
  place: `Refinement.InvertedFlips`, exact.
* The mode switch primes the drive but not the limiter's record. The first write after it repeats the
  priming exactly if limiting from the old record shows on no channel the level sends; if the limited
  command is outside the limits, so that the hold fallback is sent, exactly if holding still is the
  priming (`Bumpless.FirstWriteRepeats`).
* Below POSITION level `write()` records positions it does not send. The slew bound on sent positions
  survives such a gap exactly as far as the gap has not moved the record (`Gaps.GapSlew`,
  `Gaps.GapAlways`).
* With outputs gated or without a transport the thread still counts a write cycle; the thread and the
  synchronous path agree exactly when `write()` reaches the joints (`Refinement.CycleRefines`).
* A thread starts from zero, whatever position a joint is held at: it agrees with the synchronous
  interface exactly if all joints are held at zero and none is masked (`Start.FirstCycle`). After
  deactivation and activation with a joint resting elsewhere the two part on any bus
  (`Start.RestartParts`; exactly: `Start.RestartExactly`), and a discontinuity limit smaller than the
  position keeps the thread from accepting the joint while it stands there
  (`Start.RestartDiscontinuity`, `Start.RestartNeverAccepts`).
* `initialize` loses a handle exactly if a serial number is reported twice or the only device has
  serial number zero (`Handles.InitializeConserves`); `Handles.RepeatedSerialLeaks` and
  `Handles.ZeroSerialLeaks` give such buses.

## Model

| member | source | states |
|---|---|---|
| Refinement.CycleRefines | odrive_hardware_interface/src/odrive_hardware_interface.cpp:2421-2892 | without TIMEOUT/NO_DEVICE and from equal states of the joints, one cycle of the I/O thread causes exactly the traffic of read() then write() with the same commands; the resulting states (telemetry, health, errors, limiter and fault flags, last command and sequence number, drive errors, bus voltages, all four counters) agree if and only if write() reaches the joints |
| Refinement.RunRefines | odrive_hardware_interface/src/odrive_hardware_interface.cpp:2421-2892 | the same over any number of cycles in which controllers rewrite all commands |
| Refinement.CommandOverwritten | odrive_hardware_interface/src/odrive_hardware_interface.cpp:2033-2039 | a joint that was sent has the shaped and oriented command in its exported command fields afterwards |
| Refinement.InvertedFlips | odrive_hardware_interface/src/odrive_hardware_interface.cpp:2213-2218 | an inverted joint commanded once, not limited, valid in both directions, and written twice with any read() and sequence number between: the first write() sends the negated command, the second the command itself; these are the same setpoints exactly if the channels of the level are zero |
| Refinement.ThreadRepeats | odrive_hardware_interface/src/odrive_hardware_interface.cpp:2692-2704 | the thread shapes the same valid order to itself as long as no channel exceeds its rate from the last command |
| Channels.SetpointsSame | odrive_hardware_interface/src/axis_control.cpp:207-343 | two commands give the same setpoints if and only if on every channel the level sends they are the same float: equal, or beyond the same end of the float range |
| Start.FirstCycle | odrive_hardware_interface/src/odrive_hardware_interface.cpp:2286-2371 | a thread started beside a freshly activated interface agrees with it after the first cycle of both, the blank command of the buffers for the thread and the commands of reset_runtime_state for write(), if and only if every joint is held at zero and none is masked for a fault |
| Start.RefinesFromStart | odrive_hardware_interface/src/odrive_hardware_interface.cpp:2354-2371 | from such a start the two agree after every later cycle in which controllers rewrite all commands |
| Start.FirstActivation | odrive_hardware_interface/src/odrive_hardware_interface.cpp:437-462 | activated straight from its configuration, the interface agrees with its thread after the first cycle if and only if no joint is masked for a fault in it |
| Lockstep.FirstCycleExactly | odrive_hardware_interface/src/odrive_hardware_interface.cpp:2286-2371 | a thread started beside any interface with all joints at no level agrees with it after the first cycle of both if and only if every joint matches in its poll and in its write: the poll replaces, or leaves no trace of, what was measured before, and the write leaves the record, the sequence number, the flags and the write error the thread has |
| Lockstep.PollExactly | odrive_hardware_interface/src/odrive_hardware_interface.cpp:1770-1898 | the first poll of a joint by both leaves the same measurements if and only if a sample is valid from the last valid position exactly if it is from zero, a rejected sample or a failed poll finds a joint of which nothing was measured, and an accepted sample is free of errors or finds the joint at zero without a last valid velocity |
| Lockstep.FirstWriteExactly | odrive_hardware_interface/src/odrive_hardware_interface.cpp:2037-2270 | polled alike, a joint at no level causes the same traffic by both in its first write, and is the same after it if and only if its effort is not limited and, masked, its record is empty and it has no write error but that of the idle request; stale, its record and sequence number are zero; otherwise its command is zero, and so is the sequence number with the freshness gate |
| Lockstep.FirstRecord | odrive_hardware_interface/src/odrive_hardware_interface.cpp:2301-2306 | under the blank command an unmasked joint is sent nothing and gets a limiter record of zero, and with the freshness gate sequence number zero, wherever it is held; a masked one keeps its empty record |
| Start.RestingParts | odrive_hardware_interface/src/odrive_hardware_interface.cpp:2286-2371 | on any bus, an interface with a joint resting anywhere but at zero and a thread started beside it part in the first cycle |
| Start.RestartParts | odrive_hardware_interface/src/odrive_hardware_interface.cpp:882-885 | the same after deactivation and activation |
| Start.RestartExactly | odrive_hardware_interface/src/odrive_hardware_interface.cpp:835-951 | after deactivation and activation of an interface with all joints at no level, whatever was measured, commanded and recorded of them, the same condition is exact |
| Start.RestartPosition | odrive_hardware_interface/src/odrive_hardware_interface.cpp:2344-2345 | the position after the first poll of any activated joint: the interface goes on from where it stood, the thread from zero; they agree if both accept the sample or the joint stands at zero, and if neither accepts it only then |
| Start.RestartDiscontinuity | odrive_hardware_interface/src/odrive_hardware_interface.cpp:2598-2605 | with discontinuity limit d, a sample of a joint standing at p is valid for the thread after a start exactly if p is within d of zero, for the interface always |
| Start.RestartNeverAccepts | odrive_hardware_interface/src/odrive_hardware_interface.cpp:2598-2605 | a joint that keeps standing beyond that limit is not accepted in any number of cycles after the start, whatever it is commanded: the thread exports zero, unhealthy |
| Start.CleanupFresh | odrive_hardware_interface/src/odrive_hardware_interface.cpp:937-951 | cleanup and recovery leave fresh joints |
| Start.ActivateFresh | odrive_hardware_interface/src/odrive_hardware_interface.cpp:835-888 | activation keeps fresh joints fresh |
| ThreadWire.CycleTraffic | odrive_hardware_interface/src/odrive_hardware_interface.cpp:2421-2892 | however a cycle of the thread ends, its traffic is its reads followed by the traffic of one write(), or only its reads if one of them ended it |
| ThreadWire.ThreadIsSafe | odrive_hardware_interface/src/odrive_hardware_interface.cpp:2705-2867 | every event of a cycle of the thread is a read, an idle request, or belongs in order to the setpoint block of a joint whose shaped order is within its limits or exactly the hold fallback |
| ThreadWire.ThreadFeed | odrive_hardware_interface/src/axis_control.cpp:207-343 | every watchdog feed of the thread ends the turn of an unmasked, fresh joint whose setpoints were all written before it |
| ThreadWire.ThreadFeedsOnce | odrive_hardware_interface/src/axis_control.cpp:207-343 | no axis is fed twice in one cycle of the thread |
| Mailbox.ExclusiveTransport | odrive_hardware_interface/src/odrive_hardware_interface.cpp:2373-2396 | in every interleaving the caller uses the transport only without a thread, both are never inside a transport operation, and in_flight holds exactly while the thread runs a cycle |
| Mailbox.NoCycleAfterStop | odrive_hardware_interface/src/odrive_hardware_interface.cpp:2373-2396 | once stop is set no command is taken before the next start |
| Mailbox.SwitchRestores | odrive_hardware_interface/src/odrive_hardware_interface.cpp:1116-1134 | when a mode switch returns, on any path and in any interleaving, the thread runs exactly if it ran before |
| Mailbox.CallEnds | odrive_hardware_interface/src/odrive_hardware_interface.cpp:2354-2408 | in every interleaving, a call that stops or starts the thread returns with the thread running exactly if it is a switch that found it running or an activation that succeeded |
| Mailbox.CallStep | odrive_hardware_interface/src/odrive_hardware_interface.cpp:876-888 | a successful activation first puts the blank command in the mailbox and the given buffers in the snapshot; a failed one changes nothing |
| Mailbox.MailboxProtocol | odrive_hardware_interface/src/odrive_hardware_interface.cpp:2421-2435 | between a start and the next stop commands are taken in order and at most once, a cycle runs the command it took, there are at most as many cycles as posts plus one, every cycle but the running one has published, and a post is passed over only for a later one |
| Mailbox.TakesLatest | odrive_hardware_interface/src/odrive_hardware_interface.cpp:2425-2435 | a thread that finds a request takes the latest post, which it had not taken before |
| Mailbox.RestartReplays | odrive_hardware_interface/src/odrive_hardware_interface.cpp:2354-2371 | a started thread begins with the last posted command |
| Mailbox.NoLostWakeup | odrive_hardware_interface/src/odrive_hardware_interface.cpp:1981-1986 | whenever there is something to do the thread can do it without a spurious wakeup or the caller is about to notify it; a joining caller never waits for a sleeping thread |
| Mailbox.JoinSucceeds | odrive_hardware_interface/src/odrive_hardware_interface.cpp:2386-2391 | while the caller joins, every move of the thread except a transport operation brings it strictly nearer to its end, and join is possible exactly at the end |
| Session.SnapshotMeaning | odrive_hardware_interface/src/odrive_hardware_interface.cpp:2401-2440 | in every interleaving after a start in which each snapshot published is one cycle from the one before under the command taken for it, the snapshot last published is the result of one cycle for each command taken, in the order of the posts |
| Session.SessionRefines | odrive_hardware_interface/src/odrive_hardware_interface.cpp:2401-2440 | so, without TIMEOUT and NO_DEVICE and from equal states, the running thread and a manager that calls read(), has its controllers write the commands taken, and calls write() stay in equal states, whatever the interleaving and whichever posts are passed over |
| Session.SessionFromStart | odrive_hardware_interface/src/odrive_hardware_interface.cpp:2286-2371 | after an activation with all joints at zero and none masked the same holds from the first cycle on, if the blank command is taken before a write() overtakes it |
| Claims.ClaimInvariant | odrive_hardware_interface/src/odrive_hardware_interface.cpp:1140-1275 | throughout a run, whenever a transport exists every claimed joint with a watchdog has ENABLE_WATCHDOG last written true, successfully, if and only if no mode switch of the run reaches a release whose final idle request fails |
| Claims.SwitchKeepsClaims | odrive_hardware_interface/src/odrive_hardware_interface.cpp:1145-1275 | one mode switch, failed or not, keeps that invariant if and only if it reaches no such release; a successful one never does |
| Claims.SwitchJointClaim | odrive_hardware_interface/src/odrive_hardware_interface.cpp:1199-1272 | the turn of one joint in a mode switch keeps that invariant if and only if it is not a release whose final idle request fails; after success claimed means level not UNDEFINED |
| Claims.ReleaseCanFail | odrive_hardware_interface/src/odrive_hardware_interface.cpp:1201-1266 | a concrete bus on which a release fails and leaves the joint claimed with its watchdog off |
| Claims.ReentryUnguarded | odrive_hardware_interface/src/odrive_hardware_interface.cpp:1152-1164 | a joint still claimed after a failed release that gets a level again is not armed: the switch, if it succeeds, ends by requesting closed loop with the watchdog off |
| Claims.UnguardedRun | odrive_hardware_interface/src/odrive_hardware_interface.cpp:1145-1275 | it stays claimed with the watchdog off through every run of reads, writes, commands, deactivations and switches to other levels, until it is released or masked in a switch, activated again or cleaned up |
| ThreadWire.ThreadKeepsClaims | odrive_hardware_interface/src/odrive_hardware_interface.cpp:2421-2892 | any number of cycles of the thread, also such as lose the transport, leave the claims of the interface armed exactly if they were armed before |
| Masking.ReadThenWrite | odrive_hardware_interface/src/odrive_hardware_interface.cpp:2023-2213 | a read() that leaves a joint with valid telemetry, any new commands and levels, and a write() that reaches the joint: the write() puts a setpoint or a feed on its axis if and only if the joint has a level and a new command and, where faults are masked, none of the four error words read last is in 1 .. 2^31-1 |
| Masking.MaskedExactly | odrive_hardware_interface/src/odrive_hardware_interface.cpp:2023-2213 | the same for the turn of one joint after an accepted poll, at any place of the log |
| Masking.TurnExactly | odrive_hardware_interface/src/odrive_hardware_interface.cpp:2123-2258 | otherwise the turn adds nothing but one idle request, exactly if a fault is masked, idling is asked for and none has been accepted yet |
| Masking.ReadShowsWords | odrive_hardware_interface/src/odrive_hardware_interface.cpp:1770-1898 | a joint with valid telemetry after read() exports the four error words last read from its axis, each as int32 |
| Telemetry.PollMeaning | odrive_hardware_interface/src/odrive_hardware_interface.cpp:1770-1898 | what a poll leaves, from what the drive answered: unfinished or outside the feedback limits, the joint is held and reports the status or -1; accepted, it exports the error words as int32, both temperatures and, if all four words are zero, position, velocity and torque in the frame of the joint, and is healthy exactly then; the status is passed to the sensor of the drive |
| Telemetry.PollAnswers | odrive_hardware_interface/src/axis_telemetry.cpp:17-144 | the nine answers of a complete poll are the last ones read from its nine registers |
| Telemetry.FeedbackExactly | odrive_hardware_interface/src/odrive_hardware_interface.cpp:1820-1852 | a sample is accepted if and only if all its numbers are finite and velocity, torque and distance from the last valid position, converted from turns and amperes, are within the limits |
| Turns.ClaimTurn | odrive_hardware_interface/src/odrive_hardware_interface.cpp:1155-1271 | the turn of a joint that gets a level: watchdog armed and fed, axis error read, cleared if it is exactly 0x800, then control mode, setpoints that hold the measured state and closed loop unless a fault is masked, each with its literal value, in order and up to the first failure; the axis error exported is zero after a successful clearing and otherwise the word read |
| Turns.ClearsExactly | odrive_hardware_interface/src/odrive_hardware_interface.cpp:1178-1197 | a claim that has armed the watchdog and read the axis error calls CLEAR_ERRORS if and only if the word is 0x800 |
| Turns.SwitchMasked | odrive_hardware_interface/src/odrive_hardware_interface.cpp:1232-1242 | a successful turn after an accepted poll, with masking on, leaves the joint at UNDEFINED and unclaimed if one of the four words polled is a fault, for a claim with the axis error just read, other than 0x800, in place of the first; otherwise it keeps its level and is claimed exactly if it has one |
| Turns.ReleaseMeaning | odrive_hardware_interface/src/odrive_hardware_interface.cpp:1199-1229 | a release requests idle and disarms the watchdog whatever is answered, and then requests idle again unless a fault is masked |
| Turns.EnterMeaning | odrive_hardware_interface/src/odrive_hardware_interface.cpp:1232-1271 | the entry of a level or of idle, operation by operation, and what the joint remembers of it |
| Commands.ShapeMeaning | odrive_hardware_interface/src/odrive_hardware_interface.cpp:2041-2122 | the command is limited from the last one sent, the position at POSITION level only, the velocity at POSITION and VELOCITY level, the effort always; it is used if what its level sends is finite and within the limits, and replaced by holding still otherwise; flags and counters tell which channels were changed |
| Commands.TurnMeaning | odrive_hardware_interface/src/odrive_hardware_interface.cpp:2123-2258 | what a turn of write() puts on the axis, setpoint by setpoint in the units and the frame of the motor, in order and up to the first failure, and what the joint remembers: error, command, sequence number, fault flags |
| Commands.SentOnce | odrive_hardware_interface/src/odrive_hardware_interface.cpp:2203-2208 | with the freshness gate, a command that was sent completely is not sent again without a new sequence number |
| Commands.PeriodMeaning | odrive_hardware_interface/src/odrive_hardware_interface.cpp:2004-2008 | a period that is no positive number counts as one millisecond |
| Lifecycle.ActivationMeaning | odrive_hardware_interface/src/odrive_hardware_interface.cpp:835-888 | activation ends without a transport, or with one on which every joint has ENABLE_WATCHDOG last written false, the timeout of a used watchdog written, and the torque constant it read last, and CLEAR_ERRORS called on every axis in order up to the first failure, after which it returns false; if nothing fails there is a transport and it returns true; claims and faults are forgotten, nothing else of a joint changes; gated outputs follow the transport |
| Lifecycle.InitMeaning | odrive_hardware_interface/src/odrive_hardware_interface.cpp:359-411 | the same for one joint, with at most three attempts at each operation |
| Lifecycle.DeactivationMeaning | odrive_hardware_interface/src/odrive_hardware_interface.cpp:890-935 | deactivation requests idle of every axis in order, up to the first failure, which drops the transport; if it keeps the transport, idle is the state last requested of every axis; gated outputs are off |
| Lifecycle.GatedSilence | odrive_hardware_interface/src/odrive_hardware_interface.cpp:2014-2021 | with gated outputs, from a deactivation, cleanup or recovery to the next activation no write() of any run does anything |
| Lifecycle.DrivesExactly | odrive_hardware_interface/src/odrive_hardware_interface.cpp:464-486 | configuration makes one drive for every serial number of a joint, and no other |
| Keys.PrepareMeaning | odrive_hardware_interface/src/odrive_hardware_interface.cpp:1046-1115 | for distinct joint names without a slash: a joint goes to POSITION if its name + "/position" is started, else to VELOCITY, else to EFFORT likewise, else to UNDEFINED if a stopped key begins with its name and a slash, and otherwise keeps its level |
| Keys.SplitExactly | odrive_hardware_interface/src/odrive_hardware_interface.cpp:1050-1058 | a key is split at its first slash, in the only way |
| Ends.ReadEnds | odrive_hardware_interface/src/odrive_hardware_interface.cpp:1665-1898 | read() asks every sensor for its voltage, every drive for its CAN error and every joint for its telemetry; the first TIMEOUT or NO_DEVICE ends it and fails everything with it, without one it is counted, and sensors and drives show what they answered |
| Ends.SilentRead | odrive_hardware_interface/src/odrive_hardware_interface.cpp:1694-1712 | without a transport read() leaves the bus alone, holds all joints and blanks the sensors |
| Ends.WriteEnds | odrive_hardware_interface/src/odrive_hardware_interface.cpp:1994-2262 | the first TIMEOUT or NO_DEVICE ends a write() and drops the transport; without one it is counted |
| Ends.CycleEnds | odrive_hardware_interface/src/odrive_hardware_interface.cpp:2421-2892 | the first TIMEOUT or NO_DEVICE ends a cycle of the thread, drops the transport, and fails every joint with it, read and write; without one both counters advance |
| Ends.SilentCycle | odrive_hardware_interface/src/odrive_hardware_interface.cpp:2494-2504 | without a transport a cycle leaves the bus alone, and every joint is held, unhealthy and without telemetry |
| Claims.SwitchClaimsLevels | odrive_hardware_interface/src/odrive_hardware_interface.cpp:1268-1275 | after a successful switch with a transport exactly the joints with a level are claimed |
| Claims.ActivateUnclaims | odrive_hardware_interface/src/odrive_hardware_interface.cpp:870-872 | activation ends without a transport or without a claim |
| Isolation.JointIsolation | odrive_hardware_interface/src/odrive_hardware_interface.cpp:1773-2259 | without TIMEOUT/NO_DEVICE, over any sequence of read(), write() and commands, the final state of a joint and the traffic of its axis are the same in two systems that agree on the joint, its commands and the answers of its axis, whatever their other joints are and do |
| Isolation.ReadSpecAlike | odrive_hardware_interface/src/odrive_hardware_interface.cpp:1709-1933 | the same for one read() |
| Isolation.WriteSpecAlike | odrive_hardware_interface/src/odrive_hardware_interface.cpp:2003-2262 | the same for one write() |
| Motion.SlewBound | odrive_hardware_interface/src/odrive_hardware_interface.cpp:2050-2121 | over any run the last sent position of a non-inverted POSITION joint with rate r moves by at most r times the effective time of its complete sends, if no command was rejected |
| Motion.SentOnWire | odrive_hardware_interface/src/odrive_hardware_interface.cpp:2220-2258 | a complete send of a POSITION joint put the recorded position on the wire, successfully, as the first operation of its turn |
| Motion.StepLastCmd | odrive_hardware_interface/src/odrive_hardware_interface.cpp:2255-2258 | in any call but cleanup the record of the last command changes only by a complete send, to the shaped and oriented command |
| Gaps.UnsentRecord | odrive_hardware_interface/src/odrive_hardware_interface.cpp:2255-2258 | below POSITION level a complete write() records a position that is not in its traffic: as commanded, whatever its rate and limits, or where the joint is held if the command is rejected |
| Gaps.GapSlew | odrive_hardware_interface/src/odrive_hardware_interface.cpp:2050-2121 | after writes at other levels only, the next position sent lies within a bound of the one sent before them exactly if the end of the step from the record they left does, or the commanded position where the step reaches it |
| Gaps.GapAlways | odrive_hardware_interface/src/odrive_hardware_interface.cpp:2050-2121 | this holds of every finite command exactly if the record was moved by no more than the bound leaves beside one step; with the bound of a single step, exactly if it was not moved at all |
| Motion.Converges | odrive_hardware_interface/src/odrive_hardware_interface.cpp:2050-2121 | re-commanded each cycle to a valid target, after k complete sends the position is the k-th point of the approach, within the limits, and equals the target exactly if k is at least ceil(distance / (rate * dt)) |
| Motion.ApproachMeaning | odrive_hardware_interface/src/command_validation.cpp:51-76 | the approach is monotone without overshoot and is at the target exactly once k steps cover the distance |
| Motion.StepsNeeded | odrive_hardware_interface/src/command_validation.cpp:51-76 | k steps cover the distance exactly if k is at least ceil(distance / step) |
| Motion.NeverRejected | odrive_hardware_interface/src/command_validation.cpp:78-136 | a POSITION command that is valid, limited at non-negative rates from a valid last command, is never rejected and stays valid |
| Motion.NotFinitePosition | odrive_hardware_interface/src/odrive_hardware_interface.cpp:2041-2121 | limiting precedes validation: a NaN position is always rejected, an infinite one becomes one finite step exactly if a rate limit and a finite last command exist |
| Inverted.InvertedSlew | odrive_hardware_interface/src/odrive_hardware_interface.cpp:2213-2258 | exactly when a send of an inverted joint stays within one step of the previous one, by command, record and step |
| Inverted.InvertedHold | odrive_hardware_interface/src/odrive_hardware_interface.cpp:2213-2258 | an inverted joint at its target is sent it again if and only if twice the target is within one step |
| Inverted.InvertedRun | odrive_hardware_interface/src/odrive_hardware_interface.cpp:2213-2258 | over any run in which a target is re-commanded and not rejected, the record of an inverted joint after k complete sends is the k-th bounce |
| Inverted.ArrivalExact | odrive_hardware_interface/src/odrive_hardware_interface.cpp:2213-2258 | the bounces reach the target if and only if the record is not in the stuck region between the mirrored target and one step before the target |
| Inverted.InvertedArrival | odrive_hardware_interface/src/odrive_hardware_interface.cpp:2213-2258 | a run that starts in the stuck region never ends at the target; any other does after a number of complete sends that depends on record, target and step alone |
| Inverted.BounceStuck | odrive_hardware_interface/src/odrive_hardware_interface.cpp:2213-2258 | in the stuck region every second send returns to the same record |
| Inverted.SettlesExact | odrive_hardware_interface/src/odrive_hardware_interface.cpp:2213-2258 | an inverted joint reaches its target and keeps it if and only if twice the target is within one step |
| Inverted.InvertedNeverRejected | odrive_hardware_interface/src/command_validation.cpp:78-136 | with symmetric ranges a valid command of an inverted joint with a valid record is not rejected and leaves a valid record |
| Frozen.ReadSettles | odrive_hardware_interface/src/odrive_hardware_interface.cpp:1665-1898 | after read() a joint stands at the sample it just accepted, or else where it stood; unhealthy means zero velocity and effort, healthy means a sample just accepted, valid telemetry, no read error and four clear registers |
| Frozen.FrozenHistory | odrive_hardware_interface/src/odrive_hardware_interface.cpp:251-319 | in every run, across failed reads, deactivation, cleanup and recovery, the exported state is finite and the position equals the last valid one and is the sign-adjusted most recently accepted sample |
| Frozen.ConfiguredSettled | odrive_hardware_interface/src/odrive_hardware_interface.cpp:451-462 | a configured joint is settled at zero |
| Frozen.JumpBound | odrive_hardware_interface/src/odrive_hardware_interface.cpp:1842-1852 | a non-inverted joint with discontinuity limit d moves at most n*d over n reads |
| Frozen.InvertedStandstill | odrive_hardware_interface/src/odrive_hardware_interface.cpp:1842-1852 | for an inverted joint at rest at p a sample passes the discontinuity check exactly if twice the distance of p from zero is within the limit |
| Frozen.InvertedNeverRecovers | odrive_hardware_interface/src/odrive_hardware_interface.cpp:1842-1852 | an inverted joint standing at p, with twice the distance of p from zero beyond the limit, whose motor reports nothing else, stays at p and is unhealthy from the first read() on, in every run |
| Setpoints.WriteIsSafe | odrive_hardware_interface/src/odrive_hardware_interface.cpp:2041-2224 | every event of write() is an idle request, or stands in order in the setpoint block of a joint whose command is within its limits or exactly the hold fallback, and is a feed or a finite float; for all commands, NaN and infinities included |
| Setpoints.FeedDiscipline | odrive_hardware_interface/src/axis_control.cpp:207-343 | over any run a watchdog feed directly follows either ENABLE_WATCHDOG=true on a claim or successful writes of every setpoint of the level of an unmasked, fresh joint with a level and a watchdog |
| Setpoints.WriteFeed | odrive_hardware_interface/src/axis_control.cpp:207-343 | the same for one write(), where the feed ends the turn of its joint |
| Setpoints.SwitchFeeds | odrive_hardware_interface/src/odrive_hardware_interface.cpp:1152-1170 | every feed of a mode switch directly follows the arming of a joint being claimed |
| Setpoints.SwitchEntries | odrive_hardware_interface/src/axis_control.cpp:38-205 | every request for closed loop in a mode switch directly follows the level and the priming setpoints of its joint |
| Setpoints.WriteFeedsOnce | odrive_hardware_interface/src/axis_control.cpp:207-343 | no axis is fed twice in one write() |
| Setpoints.SentIsFed | odrive_hardware_interface/src/axis_control.cpp:207-343 | a joint sent in full with a watchdog and a level ends its turn with a successful feed |
| Setpoints.ClosedLoopEntry | odrive_hardware_interface/src/axis_control.cpp:38-205 | over any run closed loop is requested only in a mode switch, directly after the level and the priming setpoints, and at that point the registers of the drive hold them |
| Bumpless.PrimedPosition | odrive_hardware_interface/src/odrive_hardware_interface.cpp:1245-1256 | after a healthy read() the primed position equals the register the drive reported if and only if the axis is not inverted or stands at zero; inverted priming is the negated register |
| Bumpless.PrimedVelocity | odrive_hardware_interface/src/odrive_hardware_interface.cpp:1245-1256 | likewise for the velocity |
| Bumpless.PrimedEffort | odrive_hardware_interface/src/odrive_hardware_interface.cpp:1245-1256 | the primed effort is the measured current times the torque constant, saturated, with the sign of the joint and not of the motor |
| Bumpless.FirstWriteRepeats | odrive_hardware_interface/src/odrive_hardware_interface.cpp:2050-2121 | the first complete write() after a switch, without a new command, of a non-inverted joint whose priming is within its limits sends the priming setpoints again if and only if limiting from the record of the last command, which the switch does not update, shows on no channel of the level; or, when that makes the command invalid, which takes a record outside the limits, if and only if holding still is the priming |
| FaultEpisodes.FaultedWrite | odrive_hardware_interface/src/odrive_hardware_interface.cpp:2123-2197 | one write() sends a faulted axis one idle request exactly if it is executed and none has succeeded, and remembers it exactly if it succeeds |
| FaultEpisodes.FaultEpisode | odrive_hardware_interface/src/odrive_hardware_interface.cpp:2123-2197 | while the fault lasts the axis receives only idle requests, all failed but possibly the last, and nothing after a success |
| FaultEpisodes.FlagsInvariant | odrive_hardware_interface/src/odrive_hardware_interface.cpp:2123-2197 | over any run idle_requested implies axis_faulted |
| FaultEpisodes.ThreadFlagsInvariant | odrive_hardware_interface/src/odrive_hardware_interface.cpp:2778-2820 | every cycle of the I/O thread keeps the same implication, fail-fast ends included |
| Outage.OutageLasts | odrive_hardware_interface/src/odrive_usb.cpp:225-231 | once the transport is latched, until an activation, whatever is called: no further bus transfer, and after every read() every joint is unhealthy, telemetry-invalid and held |
| Outage.LatchesExactly | odrive_hardware_interface/src/odrive_usb.cpp:252-283 | an operation latches the transport if and only if its device is known and it ends with TIMEOUT or NO_DEVICE |
| Outage.LatchedAnswers | odrive_hardware_interface/src/odrive_usb.cpp:225-231 | a latched transport fails every operation with TIMEOUT or NO_DEVICE and does not change |
| Outage.ReadInOutage | odrive_hardware_interface/src/odrive_hardware_interface.cpp:1667-1785 | without a transport or with a latched one, one read() leaves every joint down |
| Outage.WireNumbers | odrive_hardware_interface/src/odrive_usb.cpp:242-250 | after any operations the n-th request packet of the current transport carries number Spread(n mod 16384) |
| Outage.CurrentConserved | odrive_hardware_interface/src/odrive_usb.cpp:66-168 | at any time of any run over device lists that lose no handle every handle of the current transport is filed under one key or closed once |
| Handles.InitializeConserves | odrive_hardware_interface/src/odrive_usb.cpp:66-168 | however initialize returns on a fresh object, every opened handle is under exactly one key or closed exactly once, if and only if no serial number is reported twice and what is found is not a single device with serial number zero |
| Handles.DiscoverExactly | odrive_hardware_interface/src/odrive_usb.cpp:83-119 | with distinct reports discovery conserves and files every device under what it reported; with a repeated one some handle is lost |
| Handles.RepeatedSerialLeaks | odrive_hardware_interface/src/odrive_usb.cpp:83-134 | a bus with two devices of the same serial number on which initialize succeeds and loses a handle |
| Handles.ZeroSerialLeaks | odrive_hardware_interface/src/odrive_usb.cpp:128-134 | a bus with one device of serial number zero on which initialize succeeds and loses its handle |
| Handles.InitializeMatches | odrive_hardware_interface/src/odrive_usb.cpp:128-151 | on success with two or more devices the keys are exactly the requested serial numbers, each with the handle of the device that reported it |
| Handles.ProbeConserves | odrive_hardware_interface/src/odrive_usb.cpp:83-119 | probing one device conserves handles if and only if it does not report a serial number already filed |
| Handles.RekeyConserves | odrive_hardware_interface/src/odrive_usb.cpp:128-134 | taking a single device conserves its handle if and only if its serial number is not zero |
| Handles.LoneDevice | odrive_hardware_interface/src/odrive_usb.cpp:128-134 | a lone device is accepted under its own serial number whatever was requested |
| Handles.PurgeConserves | odrive_hardware_interface/src/odrive_usb.cpp:154-165 | the purge keeps exactly the non-negative keys and loses no handle |
| Handles.DestroyCloses | odrive_hardware_interface/src/odrive_usb.cpp:43-58 | after destruction every handle ever opened has been closed exactly once |
| Usb.SequenceClosedForm | odrive_hardware_interface/src/odrive_usb.cpp:242-245 | the n-th sequence number, n >= 1, is Spread(n mod 16384) |
| Usb.SequenceDistinct | odrive_hardware_interface/src/odrive_usb.cpp:242-245 | any 16384 consecutive sequence numbers are distinct, non-negative and have bit 7 set |
| Usb.EncodeInjective | odrive_hardware_interface/src/odrive_usb.cpp:318-339 | a packet determines sequence number, endpoint, response size and payload |
| Usb.Latch | odrive_hardware_interface/src/odrive_usb.cpp:225-314 | a latched exchange touches nothing; otherwise it makes one or two transfers and latches exactly for TIMEOUT and NO_DEVICE; handles never change |
| Routing.RoutedBySerial | odrive_hardware_interface/src/odrive_usb.cpp:350-400 | after an initialize that found two or more devices with positive, distinct serial numbers and matched all requested ones, and at any later time: every transfer of an operation for a requested serial number goes to the device that reported it; one for serial number 0 goes to that of the least requested one; one for another serial number fails with NO_DEVICE and leaves the bus alone |
| Routing.OperationRequest | odrive_hardware_interface/src/odrive_usb.cpp:225-260 | the request of an operation carries its endpoint with the highest bit set, the size of the expected response, four for a read and none for a write or call, the bytes written, and the checksum |
| Routing.ExchangeMeaning | odrive_hardware_interface/src/odrive_usb.cpp:225-316 | one operation sends such a request and fetches one answer from the same device if it was accepted; it succeeds exactly if both transfers do and the answer is not shorter than asked for, and delivers the answer without its header |
| Routing.ReadMeaning | odrive_hardware_interface/src/odrive_usb.cpp:350-370 | a read succeeds exactly if the answer holds the bytes asked for behind its header, and delivers these |
| Routing.WireAsks | odrive_hardware_interface/src/odrive_usb.cpp:238-241 | after any operations on endpoints below 0x8000 every request of the current transport has bit 7 of byte 3 set |
| Routing.ReportMeaning | odrive_hardware_interface/src/odrive_usb.cpp:85-121 | a device reports a serial number exactly if it is an ODrive that can be described, opened, detached and claimed and answers the read of eight bytes from endpoint 4, with these bytes as a little-endian number |
| Routing.InitializeOutcome | odrive_hardware_interface/src/odrive_usb.cpp:66-170 | the status of initialize, in every case |
| ErrorText.DescriptionInjective | odrive_hardware_interface/src/error_monitoring.cpp:104-136 | for every table of one-bit masks and distinct plain names, values with equal descriptions are equal |
| ErrorText.Lossless | odrive_hardware_interface/src/error_monitoring.cpp:104-136 | named bits and the unknown remainder are disjoint and together are the value |
| ErrorText.ZeroDescription | odrive_hardware_interface/src/error_monitoring.cpp:108-110 | nothing is listed exactly for zero; for a proper table the text is empty exactly for zero |
| Errors.FaultWords | odrive_hardware_interface/src/error_monitoring.cpp:167-183 | a 32-bit register counts as a fault exactly if it is in 1..2^31-1; with bit 31 set it is unhealthy but not a fault |
| Transport.RetryMeaning | odrive_hardware_interface/src/odrive_hardware_interface.cpp:147-225 | every attempt but the last failed with a retryable status, and the last is final or the last allowed |
| Transport.UsbErrorsAreFinal | odrive_hardware_interface/include/odrive_hardware_interface/transport_error.hpp:82-167 | a libusb timeout, lost device or I/O error is never retried |
| Transport.AxisEndpointInjective | odrive_hardware_interface/include/odrive_hardware_interface/axis_utils.hpp:31-34 | endpoints of axis 0 and 1 collide neither with each other nor with the global ones |
| Numeric.UnitRoundTrip | odrive_hardware_interface/include/odrive_hardware_interface/axis_utils.hpp:28-46 | turns to radians to turns is the identity |
| Numeric.Saturate | odrive_hardware_interface/src/axis_control.cpp:30-35 | the result is a float exactly if the input is not NaN, and floats are unchanged |
| Joints.StepTowardsMeaning | odrive_hardware_interface/src/command_validation.cpp:51-76 | a limited command is within one step of the last, between the last and the requested one, and is the requested one exactly if that is within reach |
| Joints.RateLimitedMeaning | odrive_hardware_interface/src/command_validation.cpp:51-76 | for a rate r >= 0 the limiter steps by at most r*dt towards the command |
| Joints.ApplyRateLimiting | odrive_hardware_interface/src/command_validation.cpp:51-76 | the limited command and whether the rate was kept, against RateLimited and RateExceeded |
| Joints.ValidateJointCommand | odrive_hardware_interface/src/command_validation.cpp:78-136 | true exactly if the channels of the level are finite and within the limits |
| Axis.ReadAxisTelemetry | odrive_hardware_interface/src/axis_telemetry.cpp:25-143 | nine reads in order, cut at the first error; the sample is the conversion of the nine replies |
| Axis.WriteAxisCommand | odrive_hardware_interface/src/axis_control.cpp:207-343 | the setpoints of the level, then the feed, cut at the first error |
| Axis.PerformAxisModeSwitch | odrive_hardware_interface/src/axis_control.cpp:38-205 | idle, or mode, priming setpoints and closed loop, cut at the first error; the primed command fields |
| Transport.Bus.PerformWithRetry | odrive_hardware_interface/src/odrive_hardware_interface.cpp:147-225 | traffic and status of the retry loop equal Retry |
| Interface.ODriveHardwareInterface.constructor | odrive_hardware_interface/src/odrive_hardware_interface.cpp:430-485 | joints, sensors and one drive per distinct serial number, reset |
| Interface.ODriveHardwareInterface.HoldState | odrive_hardware_interface/src/odrive_hardware_interface.cpp:251-259 | position at the last valid one, or zero, and at rest |
| Interface.ODriveHardwareInterface.MarkAllUnhealthyAndHold | odrive_hardware_interface/src/odrive_hardware_interface.cpp:1671-1689 | all joints, drives and sensors marked with the status |
| Interface.ODriveHardwareInterface.ReadWithoutTransport | odrive_hardware_interface/src/odrive_hardware_interface.cpp:1695-1707 | all joints held and invalid, sensors NaN |
| Interface.ODriveHardwareInterface.PollSensors | odrive_hardware_interface/src/odrive_hardware_interface.cpp:1723-1747 | the sensor loop of read() |
| Interface.ODriveHardwareInterface.PollDrives | odrive_hardware_interface/src/odrive_hardware_interface.cpp:1751-1767 | the drive loop of read() |
| Interface.ODriveHardwareInterface.ValidateFeedback | odrive_hardware_interface/src/odrive_hardware_interface.cpp:1808-1852 | true exactly if finite, believable and continuous |
| Interface.ODriveHardwareInterface.AcceptSample | odrive_hardware_interface/src/odrive_hardware_interface.cpp:1867-1898 | health, sign and hold of an accepted sample |
| Interface.ODriveHardwareInterface.PollJoint | odrive_hardware_interface/src/odrive_hardware_interface.cpp:1773-1904 | one joint of read() |
| Interface.ODriveHardwareInterface.ReadCycle | odrive_hardware_interface/src/odrive_hardware_interface.cpp:1665-1955 | read() turns the state into ReadSpec of it; every settled joint ends at the sample it accepted or where it stood, with the health implications |
| Interface.ODriveHardwareInterface.ShapeCommand | odrive_hardware_interface/src/odrive_hardware_interface.cpp:2041-2121 | limiting, validation and fallback overwrite the command fields; counters |
| Interface.ODriveHardwareInterface.MaskFaulted | odrive_hardware_interface/src/odrive_hardware_interface.cpp:2123-2197 | fault flag and idle request of a masked joint |
| Interface.ODriveHardwareInterface.SendSetpoints | odrive_hardware_interface/src/odrive_hardware_interface.cpp:2186-2258 | fault flags cleared, freshness gate, inversion, setpoints, bookkeeping |
| Interface.ODriveHardwareInterface.WriteOne | odrive_hardware_interface/src/odrive_hardware_interface.cpp:2022-2259 | one turn of the write loop; the axis is driven exactly if the joint has a level and a new command and none of its four error registers is a masked fault |
| Interface.ODriveHardwareInterface.WriteCycle | odrive_hardware_interface/src/odrive_hardware_interface.cpp:1990-2284 | write() turns the state into WriteSpec of it; every new event is safe and every feed earned |
| Interface.ODriveHardwareInterface.PrepareCommandModeSwitch | odrive_hardware_interface/src/odrive_hardware_interface.cpp:1046-1114 | the levels become those PrepareSpec gives; for distinct names, each that its name asks for |
| Interface.ODriveHardwareInterface.ClaimTransition | odrive_hardware_interface/src/odrive_hardware_interface.cpp:1152-1197 | the claim of a joint, with the operations it issues in order and the axis error it exports |
| Interface.ODriveHardwareInterface.SwitchOne | odrive_hardware_interface/src/odrive_hardware_interface.cpp:1145-1272 | one joint of the mode switch |
| Interface.ODriveHardwareInterface.PerformCommandModeSwitch | odrive_hardware_interface/src/odrive_hardware_interface.cpp:1116-1276 | the mode switch turns the state into SwitchSpec of it and returns its status; claimed watchdogs stay armed exactly if it reaches no failed release, and after a success exactly the joints with a level are claimed |
| Interface.ODriveHardwareInterface.InitializeTransport | odrive_hardware_interface/src/odrive_hardware_interface.cpp:321-419 | open, then three retried operations per joint; after a success every joint has its watchdog disarmed and configured and its torque constant read |
| Interface.ODriveHardwareInterface.OnActivate | odrive_hardware_interface/src/odrive_hardware_interface.cpp:835-888 | activation, whose failed connection leaves the component active, ends without a transport or without a claim |
| Interface.ODriveHardwareInterface.OnDeactivate | odrive_hardware_interface/src/odrive_hardware_interface.cpp:890-935 | every axis idled; the first error drops the transport |
| Interface.ODriveHardwareInterface.OnCleanup | odrive_hardware_interface/src/odrive_hardware_interface.cpp:937-943 | transport dropped, runtime state reset |
| Interface.ODriveHardwareInterface.Recover | odrive_hardware_interface/src/odrive_hardware_interface.cpp:945-951 | the same in the other order |
| IoThread.AsyncWorker.constructor | odrive_hardware_interface/src/odrive_hardware_interface.cpp:2290-2347 | the snapshot and the vectors of the thread as async_io_init_buffers leaves them |
| IoThread.AsyncWorker.MarkAllUnhealthyAndDrop | odrive_hardware_interface/src/odrive_hardware_interface.cpp:2462-2484 | all joints held with the status as read and write error, bus voltages NaN, transport dropped |
| IoThread.AsyncWorker.PollSensors | odrive_hardware_interface/src/odrive_hardware_interface.cpp:2505-2524 | the sensor loop of the cycle |
| IoThread.AsyncWorker.PollDrives | odrive_hardware_interface/src/odrive_hardware_interface.cpp:2527-2545 | the drive loop of the cycle |
| IoThread.AsyncWorker.PollJoints | odrive_hardware_interface/src/odrive_hardware_interface.cpp:2548-2649 | the joint loop of the read phase |
| IoThread.AsyncWorker.ShapeOrder | odrive_hardware_interface/src/odrive_hardware_interface.cpp:2705-2776 | limiting, validation and fallback of the local copies; flags and counters |
| IoThread.AsyncWorker.SendOrder | odrive_hardware_interface/src/odrive_hardware_interface.cpp:2815-2867 | fault flags cleared, inversion, freshness gate, setpoints, bookkeeping |
| IoThread.AsyncWorker.WritePhase | odrive_hardware_interface/src/odrive_hardware_interface.cpp:2667-2870 | the write phase, cut at a fail-fast error |
| IoThread.AsyncWorker.RunCycle | odrive_hardware_interface/src/odrive_hardware_interface.cpp:2421-2892 | one cycle turns the state into CycleSpec of it; what it sends is safe, its feeds are earned and idle_requested still implies axis_faulted, however it ends |
| Mailbox.AsyncIo.Write | odrive_hardware_interface/src/odrive_hardware_interface.cpp:1981-1986 | the mailbox after write() in asynchronous mode |
| Mailbox.AsyncIo.RequestStop | odrive_hardware_interface/src/odrive_hardware_interface.cpp:2375-2385 | the first lock region of stop-and-join |
| Mailbox.AsyncIo.ClearFlags | odrive_hardware_interface/src/odrive_hardware_interface.cpp:2392-2396 | its last lock region |
| Mailbox.AsyncIo.StartThread | odrive_hardware_interface/src/odrive_hardware_interface.cpp:2354-2371 | async_io_start |
| Mailbox.AsyncIo.WaitForCommand | odrive_hardware_interface/src/odrive_hardware_interface.cpp:2423-2435 | one pass through the predicate of wait(), and the command taken |
| Mailbox.AsyncIo.Read | odrive_hardware_interface/src/odrive_hardware_interface.cpp:1591-1596 | the lock region of read(): the last published snapshot, and a flag that is set exactly while the thread runs a cycle |
| Mailbox.AsyncIo.InitBuffers | odrive_hardware_interface/src/odrive_hardware_interface.cpp:2301-2351 | activation installs n zero orders at no level with sequence number zero, a blank snapshot and clear flags |
| Mailbox.AsyncIo.PublishSnapshot | odrive_hardware_interface/src/odrive_hardware_interface.cpp:2886-2892 | the publishing lock region: the snapshot is stored and in_flight ends |
| Usb.EncodePacket | odrive_hardware_interface/src/odrive_usb.cpp:318-339 | the bytes appended one after the other |
| Usb.DecodePacket | odrive_hardware_interface/src/odrive_usb.cpp:341-348 | everything after the first two bytes |
| UsbObject.ODriveUsb.EndpointOperation | odrive_hardware_interface/src/odrive_usb.cpp:225-316 | one exchange: latch, numbering, two transfers, short answers |
| UsbObject.ODriveUsb.Read | odrive_hardware_interface/src/odrive_usb.cpp:350-370 | lookup, exchange and size check; all transfers go to the device filed for the serial number |
| UsbObject.ODriveUsb.Write | odrive_hardware_interface/src/odrive_usb.cpp:372-386 | lookup and exchange with payload; all transfers go to the device filed for the serial number |
| UsbObject.ODriveUsb.ProbeDevice | odrive_hardware_interface/src/odrive_usb.cpp:83-119 | one device of the discovery loop |
| UsbObject.ODriveUsb.MatchSerials | odrive_hardware_interface/src/odrive_usb.cpp:136-151 | the nested matching loops |
| UsbObject.ODriveUsb.PurgeUnmatched | odrive_hardware_interface/src/odrive_usb.cpp:154-165 | the erasing loop |
| UsbObject.ODriveUsb.Initialize | odrive_hardware_interface/src/odrive_usb.cpp:66-168 | initialize turns the state into InitializeSpec of it and returns its status; on a fresh object it keeps every handle exactly under the stated condition |
| UsbObject.ODriveUsb.Dispose | odrive_hardware_interface/src/odrive_usb.cpp:43-58 | the destructor; if no handle was lost, all ever acquired are now closed exactly once |
| ErrorText.DescribeErrorBits | odrive_hardware_interface/src/error_monitoring.cpp:103-136 | the text is the joined list of names and remainder |

## Left out

- IEEE rounding, overflow of finite arithmetic and signed zeros: numbers are exact.
- Logging, `failing_stage` texts, `log_error_transition` and diagnostics publishing.
- Wall-clock cycle statistics and deadline misses, and with them the start time of the cycle that the
  asynchronous `read()` copies, its age check, and the copy of the snapshot into the exported state.
- Parsing of parameters and configuration: the model starts from a parsed configuration; the retry
  counts, which no parameter sets, are the constant 3.
- The check of `initialize_transport` that configuration and joints have the same length.
- libusb itself: device lists, statuses and data are arbitrary; releasing an interface counts as part
  of closing its handle; the context and its timeout are not modelled.
- The generated endpoint table, apart from the endpoints used; registers the controller reads are four
  bytes long, and how bytes encode floats is a parameter.
- The three vectors of fault and claim flags are fields of the joint; error codes kept in doubles
  (`read_error`, `write_error`, `transport_error` of a joint or drive) are integers, and the 0.0/1.0
  flags are booleans.
- The conversion of the watchdog timeout to float.
- The private vectors and the snapshot of the I/O thread are one record, of which the mailbox publishes
  the whole.
- Allocation failures, and the mutex that guards the exported state.
- The error tables of the firmware are not listed: the theorems about descriptions hold for every table
  with non-empty, comma-free, distinct names none of which begins like the remainder.
- Refinement.CycleRefines: leaves out the transport error of a sensor, which the thread does not update
  from joints, and cycles that end in TIMEOUT or NO_DEVICE, where the two implementations differ.
- Mailbox.ExclusiveTransport: assumes lifecycle order, in which `on_activate` finds no running thread.
- Start.FirstCycle: assumes the counters and the traffic of the thread to start as those of the interface.
- Inverted.InvertedRun: assumes that no command of the run is rejected; `Inverted.InvertedNeverRejected`
  gives limits for which none is.
- Motion.SlewBound: excludes cleanup and recovery, which reset the record of the last command to the
  measured position.
- Start.RestartNeverAccepts: takes the reports of the axis as standing still at every possible poll.
- Lockstep.FirstCycleExactly: takes all joints at no level; one that kept a level over a deactivation
  is sent setpoints by the interface and nothing by the thread.
