/** Whole seconds: the monotonic count, corrections of the clock, and detection of external changes. */
module SystemClock {
  import opened Arith
  import opened Configuration
  import opened Constants

  /** What the client writes to the driver to change the system clock at once. */
  datatype Injection = WholeSeconds(sec: int) | Microseconds(usec: int)

  datatype Clock = Clock(
    tNow: int, tCount: int, monoNow: real, monoLast: real,
    blockDetect: nat, consensusTimeError: int, serialTimeError: int)

  const InitialClock := Clock(0, 0, 0.0, 0.0, 0, 0, 0)

  /** A PPS reading, and whether each write to the driver that it may lead to succeeds. */
  datatype Pulse = Pulse(usec: int, ntpOk: bool, serialOk: bool, fractionOk: bool)

  /** `getFractionalSeconds`. */
  function Fraction(usec: int): int {
    if usec > 500000 then usec - USECS_PER_SEC else usec
  }

  /** `increaseMonotonicCount` with the clock readings `mono` and `now`. */
  function Increase(c: Clock, seqNum: nat, mono: real, now: int): Clock {
    var last := if seqNum < 2 then mono - 1.0 else c.monoLast;
    var count := (if seqNum == 0 then now else c.tCount) + Round(mono - last);
    var block := if c.blockDetect > 0 then c.blockDetect - 1 else 0;
    c.(monoNow := mono, monoLast := mono, tNow := now, blockDetect := block,
       tCount := if c.blockDetect > 0 && block == 0 then now else count)
  }

  /** The clock part of a step, what was written to the driver, and whether every write succeeded. */
  datatype ClockResult = ClockResult(clock: Clock, ok: bool, injected: seq<Injection>)

  predicate WantsNTP(c: Clock, cfg: Config) {
    cfg.doNTPsettime && c.consensusTimeError != 0
  }

  predicate WantsSerial(c: Clock, cfg: Config) {
    cfg.doSerialsettime && c.serialTimeError != 0
  }

  /** `setClockToNTPtime` where `makeTimeCorrection` calls it. */
  function SetNTP(c: Clock, cfg: Config, p: Pulse): ClockResult {
    if !WantsNTP(c, cfg) then ClockResult(c, true, [])
    else if !p.ntpOk then ClockResult(c, false, [])
    else ClockResult(c.(consensusTimeError := 0, blockDetect := BLOCK_FOR_3), true, [WholeSeconds(c.consensusTimeError)])
  }

  /** `setClockToSerialTime` where `makeTimeCorrection` calls it. */
  function SetSerial(c: Clock, cfg: Config, p: Pulse): ClockResult {
    if !WantsSerial(c, cfg) then ClockResult(c, true, [])
    else if !p.serialOk then ClockResult(c, false, [])
    else ClockResult(c.(tCount := c.tCount + c.serialTimeError, serialTimeError := 0), true, [WholeSeconds(c.serialTimeError)])
  }

  /** Both whole-second corrections, in order; a failed write ends the step. */
  function SetSeconds(c: Clock, cfg: Config, p: Pulse): ClockResult {
    var ntp := SetNTP(c, cfg, p);
    if !ntp.ok then ntp
    else
      var serial := SetSerial(ntp.clock, cfg, p);
      serial.(injected := ntp.injected + serial.injected)
  }

  /** The whole seconds of the vote that a step puts into the clock. */
  function VotedSeconds(c: Clock, cfg: Config, p: Pulse): int {
    if WantsNTP(c, cfg) && p.ntpOk then c.consensusTimeError else 0
  }

  /** The whole seconds of a serial correction that it puts there. */
  function SerialSeconds(c: Clock, cfg: Config, p: Pulse): int {
    if WantsSerial(c, cfg) && p.serialOk && (WantsNTP(c, cfg) ==> p.ntpOk) then c.serialTimeError else 0
  }

  /** Whether a step gets as far as comparing its counter with the clock: nothing blocks and no write fails before. */
  predicate Looks(c: Clock, cfg: Config, p: Pulse, seqNum: nat, avgSlew: real) {
    && c.blockDetect == 0 && !WantsNTP(c, cfg) && (WantsSerial(c, cfg) ==> p.serialOk)
    && seqNum > SLEW_LEN && AbsR(avgSlew) < SLEW_MAX
  }

  /** `detectExteralSystemClockChange` under its guard in `makeTimeCorrection`. */
  predicate Reports(c: Clock, seqNum: nat, avgSlew: real) {
    c.blockDetect == 0 && seqNum > SLEW_LEN && AbsR(avgSlew) < SLEW_MAX && c.tNow != c.tCount
  }

  /** How far a list of driver writes moves the whole seconds of the system clock. */
  function SecondsInjected(injected: seq<Injection>): int {
    if injected == [] then 0
    else (if injected[0].WholeSeconds? then injected[0].sec else 0) + SecondsInjected(injected[1..])
  }
}
