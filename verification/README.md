# PPS-Client: a verified model

PPS-Client disciplines the system clock with a pulse-per-second signal. This project models the parts of it whose
correctness is a matter of state and arithmetic over long runs, and proves what those parts promise.

- **The controller** (`client/pps-client.cpp`). `Controller.dfy` holds the functions of the source as methods over
  mutable state: class `PpsClient.Controller` has the fields of `struct G` that the controller uses, and class
  `PpsClient.Daemon` the main loop with the locals of `client/pps-serial.cpp`. Every method is proved equal to a
  specification function of the same name in `Limiter`, `Noise`, `Integrator`, `InterruptDelay`, `Servo`,
  `SystemClock`, `SerialTime`, `Configuration` and `MainLoop`; `Servo.Tick` is one PPS reading, `MainLoop.Step` one pass
  of the loop.
  The theorems are about those functions: `Servo.Inv` ties the state to the history since the last restart.
  `ServoRuns`, `SysDelayRuns`, `ServoDynamics` and `PullIn` are about all runs of the controller, `PinnedRun` about one
  of them, and `Outcomes` about what a single pass decides and sends in any of them. `ClockRuns` and `FixedSerial` are
  about all runs of the loop against a system clock, `ClockExamples` about some of them; `Votes` follows the SNTP votes
  through all runs of the loop, `LoopOutcomes` is about its single passes, and `LoopRuns` carries the results about the
  controller and the serial protocol over to it.
- **The SNTP vote** (`client/pps-sntp.cpp`), for any number of servers: `Sntp`.
- **The tolerance calculator** (`utils/interrupt-timer/interrupt-timer.cpp`): `Tolerance`.
- **The driver** (`driver/gps-pps-io.c`): its single-opener protocol and the offsets that it injects: `Driver`.
- **The installer** (`installer/`): the package writer and the extractor: `Installer`.

`Arith`, `Constants`, `Frequency` and `Wrappers` hold what the others share.

How the source's terms are read:

- `double` is `real`, so the arithmetic is exact; `int` is unbounded except in the driver's offset arithmetic, where the
  32-bit wrap-around is written out. Integer division truncates toward zero and `round` takes halves away from zero.
- Which overload of `abs` the compiler picks for `abs(g.avgSlew)` (client/pps-client.cpp:142-143) is a parameter; all
  results hold for both.
- Clock readings, PPS readings and lost pulses, serial readings, votes, calibration delays and the outcome of every
  driver write are inputs of a pass. `adjtimex` calls and driver writes are recorded as outputs.
- The switches of the configuration file are state: a restart sets them back to their defaults, and every accepted
  pulse has the file processed again, whose content may have changed and which may be unreadable.

## Where the source does not do what was expected of it

- *An open can fail on a free device*, while another process has yet to undo its own failed open:
  `Driver.OpenSucceedsIffQuiescent` and `Driver.OpenCanFailOnFreeDevice`.
- *The trim loop of the tolerance calculator need not end.* It ends if and only if the probability is at least 1, or it
  is at least 0 and either two bins or the first bin are not empty. A negative probability, or all samples in one
  bin other than the first, keeps it running: `Tolerance.LoopEndsIffCanEnd`, `Tolerance.SecondBinNeverEnds`.
- *Editing the configuration file can make the client take its own serial corrections for external changes*: serial
  time switched off while a confirmed difference waits, and on again later. The counter is then behind the clock by
  seconds that the client has applied itself. `ClockRuns.ReportsAreExact` says for every run which pulses report, from a
  ledger of what the counter is behind; `ClockRuns.NeverMisledIff` is the exact condition under which own corrections
  are never reported, `ClockRuns.OwnCorrectionsAreNeverReported` a guard that excludes it, which an unchanged choice of
  serial time satisfies (`FixedSerial.FixedSerialIsGuarded`). The runs in `ClockExamples` report such a correction at
  once, twice, and only after it was applied.
- *The noise level is not 3 microseconds*, as client/pps-client.md says under "Jitter Spikes". The code derives it from
  `sysDelay` and never lets it fall below 4 (client/pps-client.cpp:57-62). The model follows the code.
- *A package is extracted wrongly if its head ends in FF 00*, not only if the head contains the separator:
  `Installer.RoundTrip`, `Installer.HeadLeaksIntoTar`.

## Model

| member | source | states |
|---|---|---|
| ServoRuns.RunIsGood | client/pps-client.cpp:1047-1092 | After every run from program start, with lost pulses, rejected samples, calibrations and restarts anywhere, the whole invariant ties the state of the controller to the history since the last restart. |
| ServoRuns.IntegralTelescopes | client/pps-client.cpp:273-298 | After every run, sixty times each of the ten integrals is the sum of every correction from the start of control through a given step, none missed and none counted twice, the partly filled first minute included. |
| ServoRuns.AbsorbedIsLatest | client/pps-client.cpp:277-291 | That step is the latest controlling one whose FIFO index was 50 + i. |
| ServoRuns.RollingSumRefinesHistory | client/pps-client.cpp:346-370 | After every run, the incremental accumulator over the circular buffer is the sum of the last min(n, 60) corrections, the average is a sixtieth of it and never above the largest limit in force over those steps, and the accumulator stays within 60 times 32768. |
| ServoRuns.FrequencyCommandsExact | client/pps-client.cpp:755-768 | After every run there has been exactly one frequency command per started minute of controlling steps. It is 65536 times 0.63212 times, to the nearest integer and with the sign of, the mean of ten prefix sums if the limit was 1 at the update step and the ten before it, else the last integral: a sum that was not normalised is never used. |
| ServoRuns.FrequencyCommandsAreMonotone | client/pps-client.cpp:762-767 | A larger integral never commands a smaller frequency. |
| ServoRuns.AcquisitionCounters | client/pps-client.cpp:734-773 | After every run the controller is in control if and only if 60 pulses were read; in control `seq_num` is 59 + `activeCount` + rejected samples, the FIFO index is `activeCount` mod 60, the fill count min(`activeCount`, 60); the limit is a power of two; and some mean of ten accepted errors was below 65. |
| ServoRuns.ControlEntry | client/pps-client.cpp:1074-1089 | At the sixtieth pulse the controller takes control if and only if some complete window of ten errors had a mean below 65 and the last window is not above 65 as the restart test measures it; otherwise it is exactly the initial controller again. |
| Outcomes.SlewsSent | client/pps-client.cpp:741-752 | In every reachable state a rejected pulse sends no time slew to the kernel, and an accepted one exactly one, restart or not: its error with reversed sign, clipped to the limit that the step chooses, and a quarter of that before control. |
| Outcomes.SlewsOpposeErrors | client/pps-client.cpp:746-752 | That slew is against the error, within the error and the limit, and in control equal to one of them in magnitude. |
| Outcomes.RejectedIff | client/pps-client.cpp:182-204 | A pulse is rejected if and only if the limit is at most 4, its error reaches the noise level, and fewer than thirty were rejected in a row; any other pulse that does not look like a spike gives all thirty back. |
| Outcomes.ControlRestartsIff | client/pps-client.cpp:1074-1089 | In control a pulse restarts the controller if and only if the limit that its step chooses is above 1024 and the last complete window of ten errors shows a mean above 65; a restart leaves the initial controller and sends a frequency of zero, else control goes on. |
| Outcomes.EarlyPulsesCount | client/pps-client.cpp:1077-1079 | Before the sixtieth pulse nothing restarts the controller. |
| Outcomes.RunRestartsIff | client/pps-client.cpp:1074-1089 | Both after every run from program start. |
| Outcomes.StartSendsZero | client/pps-client.cpp:1134-1135 | At program start a frequency of zero is sent and nothing else. |
| Outcomes.NoiseLevelFollows | client/pps-client.cpp:311-317 | The noise level is taken anew from the latency in the first controlling step of every minute, and at no other time. |
| Outcomes.CalibratesIff | client/pps-client.cpp:1216-1222 | A pass measures the latency if and only if it accepts its pulse, leaves the limit at 1 and gets a delay. |
| Servo.TickInv | client/pps-client.cpp:704-781 | Every single step keeps the invariant: slew window, limit, counters, circular buffer, integrals and all commands so far. |
| Servo.RejectedIsInert | client/pps-client.cpp:741-744 | A rejected second changes nothing but `seq_num`, the raw and zero error and the count of suspensions: limit, slew, FIFO, integrals, frequency, gain and `activeCount` stay. |
| Servo.AcceptedStep | client/pps-client.cpp:519-548 | What an accepted error does: new slew, the limit chosen from that slew and the previous average, gain 1 from the second controlling step on, and the clamped error with reversed sign through that gain. |
| Servo.CorrectionWithinLimit | client/pps-client.cpp:746-747 | The division that truncates toward zero keeps every correction within the limit of its step. |
| Servo.ResetInv | client/pps-client.cpp:71-86 | A cleared controller satisfies the invariant with the empty history. |
| Integrator.FeedTracks | client/pps-client.cpp:755-761 | One controlling step keeps the buffer, the rolling sum, the ten integrals and their average exact for the extended history. |
| Integrator.RollingNext | client/pps-client.cpp:346-370 | Adding the new and subtracting the overwritten correction leaves the sum of the last sixty. |
| Integrator.IntegralsNext | client/pps-client.cpp:277-291 | The integral that is due absorbs exactly the corrections since its last turn; the other nine are unchanged. |
| Integrator.AverageNext | client/pps-client.cpp:287-297 | The running average counts the steps at limit 1 in the last ten seconds of the minute and is divided by ten only when all ten were. |
| Frequency.SelectedIsCommanded | client/pps-client.cpp:559-574 | At an update step the integral selected is the closed form of the history. |
| Frequency.CommandsNext | client/pps-client.cpp:761-768 | A step adds a command only if it starts a minute, and the commands of earlier minutes stay what their histories say. |
| Frequency.ScaledIsNearest | client/pps-client.cpp:762-767 | A command is its integral times 0.63212 times 65536 to the nearest integer, and has its sign. |
| Limiter.LimitSettles | client/pps-client.cpp:151-168 | At low slew with a fixed average, iterating the limit from any power of two moves in one direction only and is at rest after 15 steps, inside the settled band. |
| Limiter.SettledIsFixedPoint | client/pps-client.cpp:151-168 | A limit is kept if and only if the average lies in its band: between a quarter and a half of it for 4 to 16384, up to 0.5 at 1, 0.5 to 1 at 2, and from a quarter upward at the cap. |
| Limiter.StepKeepsDirection | client/pps-client.cpp:151-168 | A step up doubles and is never followed by a step down, nor a step down by a step up. |
| Limiter.RaiseToIsLeast | client/pps-client.cpp:142-149 | The high-slew loop stops at the least doubling that reaches four times the slew, or at the cap. |
| Limiter.HighSlewLimit | client/pps-client.cpp:142-149 | If the slew shows above 65 the limit is the least doubling of the old one that reaches four times the slew as the overload of `abs` shows it, or the cap. |
| Limiter.LowSlewStep | client/pps-client.cpp:137-168 | Else it is 1 for an average below 0.5, half below a quarter of the limit, double above a half, and 32768 in the first minute of control. |
| Limiter.NextLimitIsLimit | client/pps-client.cpp:133-169 | The limit is always one of the powers of two from 1 to 32768. |
| Limiter.ClampIsNearest | client/pps-client.cpp:245-257 | Clamping is the nearest point of the symmetric range and is odd. |
| Noise.NoiseLevel | client/pps-client.cpp:57-62 | The noise level is never below 4. |
| Noise.NoiseLevelIs | client/pps-client.cpp:57-62 | It is 0.354 times the latency plus 1 to the nearest integer, or 4 where that is less. |
| Noise.SlewTracksNext | client/pps-client.cpp:214-226 | The accumulator holds the open window of accepted errors, the average is the mean of the last complete window of ten. |
| Noise.QuietWindowNext | client/pps-client.cpp:110-113 | Having seen a complete window with a mean below 65 is decided by the window that the newest error closes, and is never forgotten. |
| ServoDynamics.BurstProfile | client/pps-client.cpp:182-204 | In a burst of suspect pulses within any run, with pulses lost and calibrations made anywhere, a sample is rejected if and only if fewer than thirty suspensions in a row preceded it. |
| ServoDynamics.RunBurstProfile | client/pps-client.cpp:182-204 | The same from every state that a run from program start reaches. |
| ServoDynamics.RejectionsAreBounded | client/pps-client.cpp:182-204 | Over any stretch of a run whose pulses are all rejected, the suspensions before it and the pulses in it are at most 30 together. |
| ServoDynamics.RunRejectsAtMostThirty | client/pps-client.cpp:182-204 | No run from program start rejects more than thirty pulses in a row, lost pulses in between or not. |
| ServoDynamics.RejectedStays | client/pps-client.cpp:1074-1089 | A rejected second never restarts the controller. |
| ServoDynamics.SmallTick | client/pps-client.cpp:1074-1089 | As long as no error exceeds 64 the controller takes control at the sixtieth second and never restarts. |
| ServoDynamics.ClampCannotStayPinned | client/pps-client.cpp:133-169 | Over any stretch of a run, lost pulses and calibrations included: after 60 accepted errors on one side, each clipped by an unchanged limit below the cap, the next accepted sample raises the limit, whatever that sample and the slew are. |
| ServoDynamics.PinnedIsBounded | client/pps-client.cpp:133-169 | So no limit below the cap clips more than 60 accepted samples on one side while it stays the same, and none above 64 more than 18, because a complete slew window then takes the high-slew branch. |
| ServoDynamics.RunIsNeverPinnedForLong | client/pps-client.cpp:1047-1092 | Both from every state that a run from program start reaches. |
| ServoDynamics.PinnedProgress | client/pps-client.cpp:346-370 | While a limit is pinned the last corrections are all the limit, any complete slew window has a mean of at least the limit, and once there is one the limit is at most 64. |
| ServoDynamics.SlewBoundsLimit | client/pps-client.cpp:142-149 | A limit that a step keeps although the slew has reached it is at most 64. |
| ServoDynamics.NextLimitRises | client/pps-client.cpp:142-168 | A limit of at most 64 rises in the high-slew and in the low-slew branch once the average has reached it. |
| PinnedRun.MinuteIsAttained | client/pps-client.cpp:1047-1092 | The bound of 60 is attained: in an explicit run from program start, which nothing restarts, sixty errors of 1 all meet an unchanged limit of 1, with calibration and without. |
| PinnedRun.QuietRun | client/pps-client.cpp:734-773 | In passes without errors the controller takes control at the sixtieth second, never restarts, and issues zero corrections. |
| PinnedRun.HeldNext | client/pps-client.cpp:156-158 | While one large old correction still balances the average, a clipped second keeps the limit at 1. |
| PullIn.FromAnywhere | client/pps-client.cpp:741-754 | With a plant that the time slews sent to the kernel move, the error measured against the current reference, from every state that a run from program start reaches, through rejections, arbitrary calibrations, acquisition and restarts: the error never changes sign, never grows, and is 0 after 31 seconds per microsecond and 127 more at the latest. |
| PullIn.InControl | client/pps-client.cpp:741-754 | In control and without a restart 31 seconds per microsecond suffice, whatever the limit and the calibrations do. |
| PullIn.NeverOvershoots | client/pps-client.cpp:746-747 | With either gain and any limit the error stays on its side and never grows. |
| PullIn.RankDecreases | client/pps-client.cpp:1074-1089 | Each second lowers a bound made of the error, the rejections left and the seconds to control, across restarts. |
| PullIn.ReferenceStays | client/pps-client.cpp:736-737 | If every calibration measures the initial latency the reference never moves, restarts included, and the interrupt time read is at last exactly that latency. |
| InterruptDelay.Trapped | client/pps-client.cpp:974-985 | If all measured delays lie in [a, b] and the estimate does, it stays there, for any sequence of measurements and noise-level updates. |
| InterruptDelay.Converges | client/pps-client.cpp:857-903 | From anywhere the estimate reaches [a, b]: one measurement per 1/60 microsecond from above, 31 from below, because rejection holds it for at most 30 measurements in a row. |
| InterruptDelay.MeasureTrapped | client/pps-client.cpp:974-985 | One measurement cannot push the estimate out of the range. |
| InterruptDelay.MeasureMoves | client/pps-client.cpp:857-903 | At limit 1 a measurement moves the median by 1/60 toward the delay unless it is rejected, counts its rejections, and rounds the median. |
| InterruptDelay.MeasureFromAbove | client/pps-client.cpp:889-903 | Above the range a measurement lowers the median by exactly 1/60 and cannot jump over the range. |
| InterruptDelay.MeasureFromBelow | client/pps-client.cpp:857-878 | Below it a measurement raises the median by exactly 1/60 or uses up a rejection. |
| SysDelayRuns.SysDelayTrapped | client/pps-client.cpp:1216-1222 | Over any run of the controller without a restart, `sysDelay` stays in the range of the delays measured, which is only at limit 1 and after an accepted sample. |
| SysDelayRuns.SysDelayConverges | client/pps-client.cpp:1216-1222 | And it reaches that range within the same counts of calibrations. |
| SysDelayRuns.RunLatency | client/pps-client.cpp:311-317 | Between restarts the controller's estimate is a run of the estimator alone. |
| ClockRuns.ReportsAreExact | client/pps-client.cpp:626-732 | For every run from program start, with any external sets, any history of the configuration file, any votes, serial readings, failed writes, lost pulses and restarts: the reports are exactly the pulses that look for a change and apply other serial seconds than a ledger says the counter is behind the clock. |
| ClockRuns.AdvanceTracked | client/pps-client.cpp:704-777 | One pass reports exactly its alarm, and the ledger stays right. |
| ClockRuns.ReportedIff | client/pps-client.cpp:704-732 | For every state: a step reports a change if and only if nothing blocks, no vote is pending, no serial write fails, more than ten pulses were read, the slew is below 65, and the serial seconds that it adds to the counter are not those that the counter was behind. |
| ClockRuns.NeverMisledIff | client/pps-client.cpp:670-685 | A run without external sets reports none of the client's own corrections if and only if every pulse that looks applies exactly the serial seconds that earlier ones left the counter behind. |
| ClockRuns.OwnLag | client/pps-client.cpp:435-436 | Without external sets a pass leaves the counter behind by what it was before, by nothing, or by the serial seconds just applied. |
| LoopOutcomes.ReportCancelsFraction | client/pps-client.cpp:724-739 | A report cancels the fraction of a second read with a single write and gives the controller an error of zero; without one the controller gets that fraction against its reference, and none is written. |
| LoopOutcomes.CountsSeconds | client/pps-client.cpp:626-662 | The counter starts at the clock's second, counts one for each of the first two pulses and then the monotonic time to the nearest second, and is set to the clock at the end of a block. |
| LoopOutcomes.BlockAfter | client/pps-client.cpp:655-661 | A written vote and a read of the serial port set the block to 3, any other pass counts it down, a restart clears it. |
| LoopOutcomes.BlocksForThree | client/pps-client.cpp:714-725 | So detection is off in the two passes that follow, and on in the third with the counter up to date. |
| LoopOutcomes.SwitchesAfter | client/pps-files.cpp:1087-1137 | After a restart the switches have their defaults, after an accepted pulse those of the file if it can be read, else those from before. |
| LoopOutcomes.CalibrationOff | client/pps-client.cpp:1217-1218 | With calibration off no pass measures the latency. |
| LoopOutcomes.CalibrationOn | client/pps-client.cpp:960-1014 | With it on, at limit 1 and after an accepted pulse, the delay reported is measured once, and any failed access ends the loop. |
| Configuration.SwitchesFollowFile | client/pps-files.cpp:1102-1137 | Each switch follows the file where it is named and stays where it is not; naming serial time switches SNTP off. |
| Configuration.BothOnIff | client/pps-files.cpp:1124-1137 | SNTP and serial time are on together if and only if serial time stays on without being named and SNTP is or stays on. |
| Votes.VotesAreWritten | client/pps-client.cpp:704-715 | For every run of the loop from program start: what the SNTP servers put into the clock is the latest of their votes delivered while SNTP was enabled, unchanged, with the first pulse read while SNTP was enabled; none is written twice; and nothing else is written in a pass but at most one serial correction. |
| Votes.PendingIsWritten | client/pps-client.cpp:388-405 | A nonzero vote pending when a pulse is read with SNTP enabled is written, or the loop ends. |
| LoopRuns.StepWrites | client/pps-client.cpp:708-722 | The whole-second writes of a pass, in order: the pending vote if SNTP is enabled and the write succeeds, then the serial correction; and the vote kept for the next pass. |
| ClockRuns.ReportsAreExternal | client/pps-client.cpp:670-685 | For every run, whatever the configuration file does, in which from the eleventh pulse on no serial correction is applied unblocked, and whose external sets of whole seconds are made while the client watches: the reports are exactly the pulses that find the clock off by the external sets since the pulse before. Each difference is reported once, and nothing else is. |
| ClockRuns.OwnCorrectionsAreNeverReported | client/pps-client.cpp:626-685 | In particular such a run without external sets reports nothing, under any pattern of lost pulses, failed writes, SNTP and serial corrections and restarts. |
| ClockRuns.ExternalSetIsReportedOnce | client/pps-client.cpp:670-685 | After any run at all, external sets of whole seconds made while the client watches, over any number of lost pulses, are reported by the first pulse read unless they and what the counter was behind before cancel out, and never again until the next one. |
| FixedSerial.FixedSerialIsGuarded | client/pps-serial.cpp:396-405 | A run whose file never changes its choice of serial time is so guarded, with the default switches after a restart and what is left over from before it. |
| FixedSerial.FixedSerialIsNeverMisled | client/pps-client.cpp:626-685 | So without external sets it reports nothing. |
| ClockExamples.ExternalSetCanBeReported | client/pps-client.cpp:670-685 | A run from program start, with an external set before its twelfth pulse, that meets the conditions and reports once. |
| ClockExamples.EditedFileMisleads | client/pps-files.cpp:1131-1137 | A run without external sets, in which serial time is switched off and on again, that reports the client's own correction. |
| ClockExamples.OneCorrectionIsReportedTwice | client/pps-client.cpp:724-732 | One second more, and it has reported the same correction twice. |
| ClockExamples.OldCorrectionIsReported | client/pps-client.cpp:775-777 | A run that applies a correction with its eleventh pulse, before it looks for changes, and reports it with the twelfth. |
| LoopRuns.LoopReachesServoStates | client/pps-client.cpp:1175-1231 | Every run of the whole loop leaves its controller in a state that a run of the controller alone reaches, so all results about those runs hold in the loop. |
| LoopRuns.RunIsServoRun | client/pps-client.cpp:1188-1225 | The run of the controller in question, from any state. |
| LoopRuns.LoopStretchIsServoStretch | client/pps-client.cpp:1188-1225 | Any stretch of the loop after a run from program start is a stretch of the controller after a run from program start, so the results about stretches hold in the loop too. |
| LoopRuns.LoopFromStart | client/pps-client.cpp:1175-1231 | The loop from program start, over any passes: its controller is that of an explicit run of the controller, and its serial link that of an explicit run of the protocol, which applies only what two readings have confirmed. |
| LoopRuns.RunIsLoop | client/pps-client.cpp:1175-1231 | Every run against the system clock is the loop over explicit passes. |
| LoopRuns.LoopAppliesOnlyConfirmed | client/pps-client.cpp:717-722 | For every run of the loop each whole second of the clock is accounted for: what time, external sets and votes did not move was moved by serial corrections, each of them from its own confirmed pair of readings, also while the configuration file changes. |
| LoopRuns.StepFollowsProtocol | client/pps-client.cpp:421-439 | A pass drives the serial link exactly as the protocol, and writes no whole second to the driver but those of the vote and those that the protocol applies. |
| SerialTime.AppliedOnlyIfConfirmed | client/pps-serial.cpp:281-352 | For every run with lost pulses, failed threads and restarts anywhere, every correction applied is a nonzero difference seen in two valid readings with only invalid ones between them; the pairs do not overlap, and no pair is applied twice. |
| SerialTime.ConfirmedIsApplied | client/pps-serial.cpp:368-388 | Conversely a confirmed difference is applied if the PPS step after its hand-over is not lost. |
| SerialTime.ReadsOnSchedule | client/pps-serial.cpp:388-405 | After every run a query reads the port if and only if no system error has ended the link, the thread starts, and the last reading asks for another one, or it is the first pulse or one of every six hundred; and it confirms a difference if and only if it equals the one left unconfirmed. |
| PpsClient.Controller.constructor | client/pps-client.cpp:71-86 | A new controller is the initial one of the specification, frequency offset zero sent and noise level set. |
| PpsClient.Controller.SetDelayTrackers | client/pps-client.cpp:57-62 | The noise level follows `sysDelay`, nothing else changes. |
| PpsClient.Controller.Initialize | client/pps-client.cpp:71-86 | Every field, both arrays included, is cleared or has its initial value, and the switches their defaults. |
| PpsClient.Controller.ProcessFiles | client/pps-files.cpp:1087-1137 | The switches follow the file, serial time excludes SNTP, and a file that cannot be read changes nothing. |
| PpsClient.Controller.StartUp | client/pps-client.cpp:1084-1086 | The three calls of a restart give the reset controller and keep the record of what was sent. |
| PpsClient.Controller.GetAcquireState | client/pps-client.cpp:108-116 | Acquired if and only if the slew was low at the end of some window and 60 pulses were read. |
| PpsClient.Controller.SetHardLimit | client/pps-client.cpp:133-169 | The doubling loop and all branches give the next limit of the specification. |
| PpsClient.Controller.DetectDelaySpike | client/pps-client.cpp:182-204 | Rejects exactly the suspect samples up to the thirtieth in a row, and counts them. |
| PpsClient.Controller.GetTimeSlew | client/pps-client.cpp:214-226 | The slew state of the specification. |
| PpsClient.Controller.ClampJitter | client/pps-client.cpp:245-257 | The clamped error. |
| PpsClient.Controller.MakeAverageIntegral | client/pps-client.cpp:273-298 | The integral that is due and the running average, in place; all other integrals unchanged. |
| PpsClient.Controller.IntegralIsReady | client/pps-client.cpp:311-325 | Ready exactly at index 0, and then the noise level is set; the index advances modulo 60. |
| PpsClient.Controller.GetAverageCorrection | client/pps-client.cpp:346-370 | The circular buffer and the accumulator of the specification, in place. |
| PpsClient.Controller.GetIntegral | client/pps-client.cpp:559-574 | The average of ten integrals only at limit 1 with all ten formed, else the last integral. |
| PpsClient.Controller.RemoveNoise | client/pps-client.cpp:519-548 | The noise filter as a whole. |
| PpsClient.Controller.SetClockToNTPtime | client/pps-client.cpp:388-405 | The vote is written and forgotten if the write succeeds, and kept if it fails. |
| PpsClient.Controller.SetClockToSerialTime | client/pps-client.cpp:421-439 | Likewise for the serial correction, which also moves the seconds counter. |
| PpsClient.Controller.WriteDriver | client/pps-client.cpp:459-475 | The write is recorded if it succeeds, else the result is -1. |
| PpsClient.Controller.GetFractionalSeconds | client/pps-client.cpp:610-617 | A reading in the second half of a second is negative. |
| PpsClient.Controller.IncreaseMonotonicCount | client/pps-client.cpp:626-662 | Advance by the rounded monotonic increment, with its two initial cases and the end of a block. |
| PpsClient.Controller.DetectExternalSystemClockChange | client/pps-client.cpp:670-685 | Reported exactly if the slew is low after ten pulses and the counter differs from the clock, which it then takes over. |
| PpsClient.Controller.SetWholeSeconds | client/pps-client.cpp:708-722 | Both whole-second corrections in order; a failed write ends the step with the first still recorded. |
| PpsClient.Controller.CancelExternalChange | client/pps-client.cpp:724-732 | A reported change injects the negated fraction of a second and zeroes the error of this step. |
| PpsClient.Controller.AcceptError | client/pps-client.cpp:746-777 | Everything that follows for an error that was not rejected. |
| PpsClient.Controller.CorrectError | client/pps-client.cpp:734-781 | From the raw error on, the new state is `Tick` of the old one; until control the counter copies the clock. |
| PpsClient.Controller.UpdateFrequency | client/pps-client.cpp:755-772 | A controlling step's integration and, once a minute, its frequency command. |
| PpsClient.Controller.CommandFrequency | client/pps-client.cpp:762-767 | The selected integral times the gain, scaled, rounded and sent. |
| PpsClient.Controller.MakeTimeCorrection | client/pps-client.cpp:704-781 | The whole step, its result, what it wrote and whether it reported a change. |
| PpsClient.Controller.ReadPPSSetTime | client/pps-client.cpp:1047-1092 | The step with its lost-pulse case, restart condition and error result. |
| PpsClient.Controller.DetectIntrptDelaySpike | client/pps-client.cpp:857-878 | The spike detector of the calibration, with its own count. |
| PpsClient.Controller.RemoveIntrptNoise | client/pps-client.cpp:889-903 | Zero for a rejected delay, else the clamped one. |
| PpsClient.Controller.MeasureDelay | client/pps-client.cpp:974-985 | One calibration measurement. |
| PpsClient.Controller.GetInterruptDelay | client/pps-client.cpp:960-1014 | The measurement with the failures of its three driver accesses; a failed last write still has measured. |
| PpsClient.Controller.CalibrateAndProcess | client/pps-client.cpp:1216-1225 | After an accepted pulse: the calibration if it is its turn, then the file unless the calibration failed. |
| PpsClient.Daemon.DoSerialTimeCheck | client/pps-serial.cpp:281-352 | The thread body: all five outcomes of a reading. |
| PpsClient.Daemon.MakeSerialTimeQuery | client/pps-serial.cpp:368-415 | Hand-over of the last result, decision on the next read, thread start and its failure. |
| PpsClient.Daemon.OnePass | client/pps-client.cpp:1184-1226 | One pass of the loop, its end condition and what it wrote. |
| PpsClient.Daemon.WaitForPPS | client/pps-client.cpp:1175-1231 | The loop over any number of passes, ended by the first failure. |
| Sntp.ReportsInOrder | client/pps-sntp.cpp:186-187 | A difference of 1000000 is no report, any other is one. |
| Sntp.Poll.GetTimeConsensusAndCount | client/pps-sntp.cpp:175-224 | For any number of servers the result is the value reported most often, the earliest reported of several, 0 if nobody reports; the count is the number reporting; and all differences are reset. |
| Sntp.Poll.Tally | client/pps-sntp.cpp:184-206 | Although empty slots hold the legal value 0, the occupied slots are a prefix with the distinct values in first-seen order and their exact counts. |
| Sntp.Poll.AddVote | client/pps-sntp.cpp:186-203 | One difference keeps that histogram, found or new. |
| Sntp.Poll.MostHits | client/pps-sntp.cpp:208-216 | The first slot with the most hits. |
| Sntp.HistogramNext | client/pps-sntp.cpp:186-203 | Writing the value and raising the count of the right slot is the histogram of one more vote. |
| Sntp.CountsAddUp | client/pps-sntp.cpp:204-204 | The counts of the distinct values add up to the number of servers reporting. |
| Sntp.DistinctInOrder | client/pps-sntp.cpp:195-203 | Slots are in the order of first reports. |
| Sntp.ModeIsConsensus | client/pps-sntp.cpp:208-217 | The first slot with the most hits holds the consensus, also when there is no vote. |
| Sntp.ConsensusIsUnique | client/pps-sntp.cpp:175-224 | There is only one consensus. |
| Sntp.MajorityDecides | client/pps-sntp.cpp:175-224 | A value reported by more than half of those reporting is the consensus, whatever the others say. |
| Tolerance.CalcTolerance | utils/interrupt-timer/interrupt-timer.cpp:356-418 | Whenever its loop can end, the bins kept carry more than the probability and emptying one more would use up the tail; the tolerance published is the least that covers them around the first mode; other tolerances are unchanged. |
| Tolerance.ToleranceIsSound | utils/interrupt-timer/interrupt-timer.cpp:389-418 | Of the whole distribution, more than the probability lies within the tolerance of the mode. |
| Tolerance.TrimIsOptimal | utils/interrupt-timer/interrupt-timer.cpp:370-387 | No set of non-empty bins with a mass below the tail budget has more bins than the loop has emptied. |
| Tolerance.LoopEndsIffCanEnd | utils/interrupt-timer/interrupt-timer.cpp:370-387 | The trim loop ends if and only if the budget is empty, or it is at most 1 and two bins or the first bin are not empty. |
| Tolerance.SecondBinNeverEnds | utils/interrupt-timer/interrupt-timer.cpp:370-387 | With all samples in the second of two bins no number of passes ends the loop, at any probability below 1. |
| Tolerance.ModeIsKept | utils/interrupt-timer/interrupt-timer.cpp:392-397 | The mode of the bins kept is a mode of the whole distribution. |
| Tolerance.NormalisedIsDistribution | utils/interrupt-timer/interrupt-timer.cpp:358-362 | Scaling by the inverse sum gives a distribution, and does not change whether the loop ends. |
| Tolerance.Normalise | utils/interrupt-timer/interrupt-timer.cpp:349-362 | The bins scaled in place. |
| Tolerance.ScanFindsLeast | utils/interrupt-timer/interrupt-timer.cpp:371-376 | The scan finds a least non-empty bin if one is below 1, and else keeps the index of the pass before. |
| Tolerance.TrimTail | utils/interrupt-timer/interrupt-timer.cpp:364-387 | The loop, in place, with its termination. |
| Tolerance.Interval | utils/interrupt-timer/interrupt-timer.cpp:389-418 | The first mode, and the least symmetric tolerance that covers every bin kept. |
| Driver.AtMostOneHolder | driver/gps-pps-io.c:197-245 | For every interleaving of any number of processes the counter is 1 minus holders minus pending undos, and at most one process holds the device. |
| Driver.OpenSucceedsIffQuiescent | driver/gps-pps-io.c:203-231 | At any time an open succeeds if and only if nobody holds the device and no failed open has its undo to make. |
| Driver.OpenCanFailOnFreeDevice | driver/gps-pps-io.c:212-223 | An interleaving in which an open fails although nobody holds the device. |
| Driver.PpsDevice.Open | driver/gps-pps-io.c:203-231 | Without interleaving an open takes a free device or changes nothing. |
| Driver.PpsDevice.AtomicDecAndTest | driver/gps-pps-io.c:212-212 | The counter decremented and the protocol state it stands for. |
| Driver.PpsDevice.AtomicInc | driver/gps-pps-io.c:237-245 | The counter incremented by a release or an undo. |
| Driver.OffsetIsExact | driver/gps-pps-io.c:435-447 | In 32-bit arithmetic the offset injected is normalised and the one requested if and only if the request is in [-10^6, 10^6). |
| Driver.FractionIsCancelled | client/pps-client.cpp:724-732 | For every reading in [0, 10^6) the offset requested fits, is injected exactly, and is the least that takes the clock to a whole second. |
| Installer.RoundTrip | installer/install-head/pps-client-install.cpp:171-197 | Extracting from head, separator and tar gives exactly the tar if and only if the head does not contain the separator and does not end in FF 00. |
| Installer.HeadLeaksIntoTar | installer/install-head/pps-client-install.cpp:171-197 | A head without separator that ends in FF 00, whose last two bytes are extracted in front of the tar. |
| Installer.EarlySeparator | installer/install-head/pps-client-install.cpp:173-180 | A separator found before the end of the head lies in it or, by the period of the separator, the head ends in FF 00. |
| Installer.ExtractTar | installer/install-head/pps-client-install.cpp:171-197 | The search and the tail that it leaves. |
| Installer.MakePackage | installer/make-install/pps-client-make-install.cpp:71-97 | The buffer is head, separator, tar. |
| Installer.WriteSeparator | installer/make-install/pps-client-make-install.cpp:84-88 | The separator is written and everything else kept. |

## Left out

- Rounding of `double`: the arithmetic is over `real`, so equalities that need exact sixtieths are exact here.
- Wrap-around of `seq_num`, `activeCount` and the accumulators. The accumulator is proved within 60 times 32768; the counters need 68 years.
- The kernel: `adjtimex` applies at most about 500 microseconds a second and its effect on the next reading is left open, except for the plant of `PullIn`, which applies a correction in full.
- PullIn.FromAnywhere: the plant holds the frequency, loses no pulse and has no noise of its own. Its error is relative to the reference `sysDelay`, so when a calibration moves the reference the clock's own error moves with it; the two together are not proved to settle.
- ClockRuns.ReportsAreExternal: sets made while detection is blocked or not yet on are left to `ClockRuns.ReportsAreExact`.
- ClockRuns.ReportsAreExact: the driver and external sets move whole seconds only, and the fraction of a second never carries into them.
- PpsClient.Daemon.DoSerialTimeCheck: a thread runs to completion between two passes; the race on its busy flag is not modelled.
- PpsClient.Daemon.WaitForPPS: sleeping, signals and the exit request are left out, as is `checkPPSInterrupt`, which counts lost pulses, drives the alert pin and can end the loop after an hour.
- The set-up of the serial link and of the SNTP threads, which the source makes only for a switch that is on at program start; here the link always exists.
- The scheduling of SNTP queries and the server list: a completed vote is an input of a pass.
- Tolerance.CalcTolerance: reading the file is left out, and a file with a negative count or with none but zero counts, where the source divides by zero, is excluded.
- Installer.ExtractTar: for the last seven positions the source compares bytes beyond its buffer; here they do not match.
- Driver.PpsDevice.Open: interleavings are the subject of `Driver.AtMostOneHolder`; the method is one process's call without them.
- The text of the configuration file and its other settings, logs, status lines, saved distributions and timestamps (`client/pps-files.cpp`, `getPPStime`, `buildRawErrorDistrib`): output that the controller never reads back.
- GPS messages, the RFC 868 and SNTP clients, thread creation, real-time scheduling, driver loading.
- The driver's interrupt handlers and multi-core races, the two other drivers, which repeat the open protocol, the pulse generator, and `utils/NormalDistribParams`.
