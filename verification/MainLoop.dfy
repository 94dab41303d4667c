/** One pass of the loop in `waitForPPS`: clock, controller, serial time and calibration together. */
module MainLoop {
  import opened Wrappers
  import opened Arith
  import opened Configuration
  import opened Constants
  import opened Limiter
  import opened InterruptDelay
  import opened Servo
  import opened SystemClock
  import SerialTime

  datatype Client = Client(servo: Servo, clock: Clock, link: SerialTime.Link)

  /** The three driver accesses of `getInterruptDelay`: raise the pin, read the delay, lower the pin. */
  datatype Calibration = Calibration(setOk: bool, delay: Option<int>, resetOk: bool)

  /**
   * All that the environment decides about one pass: the clock readings, the vote of the SNTP servers if
   * one was completed, the PPS reading if none was lost, the outcome of the serial and calibration I/O, and
   * the configuration file if it can be read.
   */
  datatype Pass = Pass(mono: real, now: int, consensus: Option<int>, pulse: Option<Pulse>,
                       reading: SerialTime.Reading, threadOk: bool, calibration: Calibration,
                       settings: Option<File>)

  /** The client after a step, whether it goes on, what it wrote to the clock, and whether it reported a change. */
  datatype Outcome = Outcome(client: Client, ok: bool, injected: seq<Injection>, reported: bool)

  function Initialized(abs: AbsOverload): Client {
    Client(Initial(abs), InitialClock, SerialTime.InitialLink)
  }

  /** The fraction of a second that reaches the controller: after an external change, none. */
  function UsedTime(c: Client, p: Pulse): int {
    Fraction(if Reports(c.clock, c.servo.seqNum, c.servo.slew.avg) then c.servo.latency.sysDelay else p.usec)
  }

  /** `makeTimeCorrection` from the check for external changes on, where `servo` is what the reading makes of the controller. */
  function CorrectWith(c: Client, p: Pulse, servo: Servo): Outcome {
    var reports := Reports(c.clock, c.servo.seqNum, c.servo.slew.avg);
    var clock := if reports then c.clock.(tCount := c.clock.tNow) else c.clock;
    if reports && !p.fractionOk then Outcome(c.(clock := clock), false, [], true)
    else
      var followed := if !servo.isDelaySpike && !servo.isControlling then clock.(tCount := clock.tNow) else clock;
      Outcome(c.(servo := servo, clock := followed), true,
              if reports then [Microseconds(-Fraction(p.usec))] else [], reports)
  }

  function CorrectTime(c: Client, p: Pulse): (o: Outcome)
    requires c.servo.Wf()
    ensures o.client.servo.Wf()
  {
    CorrectWith(c, p, Tick(c.servo, UsedTime(c, p) - c.servo.latency.sysDelay))
  }

  /** `makeTimeCorrection`. */
  function MakeTimeCorrection(c: Client, cfg: Config, p: Pulse): (o: Outcome)
    requires c.servo.Wf()
    ensures o.client.servo.Wf()
  {
    var fixed := SetSeconds(c.clock, cfg, p);
    if !fixed.ok then Outcome(c.(clock := fixed.clock), false, fixed.injected, false)
    else
      var o := CorrectTime(c.(clock := fixed.clock), p);
      o.(injected := fixed.injected + o.injected)
  }

  /** `readPPS_SetTime`: a restart clears the controller and the clock, but not the serial link. */
  function ReadPPS(c: Client, cfg: Config, e: Pass): (o: Outcome)
    requires c.servo.Wf()
    ensures o.client.servo.Wf()
  {
    var counted := c.(clock := Increase(c.clock, c.servo.seqNum, e.mono, e.now));
    if e.pulse.None? then Outcome(counted, true, [], false)
    else
      var o := MakeTimeCorrection(counted, cfg, e.pulse.value);
      if o.ok && NeedsRestart(o.client.servo)
      then o.(client := o.client.(servo := Restarted(o.client.servo), clock := InitialClock))
      else o
  }

  /** Whether `readPPS_SetTime` restarts the controller in this pass. */
  predicate RestartsIn(c: Client, cfg: Config, e: Pass)
    requires c.servo.Wf()
  {
    var counted := c.(clock := Increase(c.clock, c.servo.seqNum, e.mono, e.now));
    e.pulse.Some? && var o := MakeTimeCorrection(counted, cfg, e.pulse.value); o.ok && NeedsRestart(o.client.servo)
  }

  /** `makeSerialTimeQuery` with its thread run to completion; the flag tells whether the loop goes on. */
  function QuerySerial(c: Client, e: Pass): (Client, bool) {
    if c.link.rv == -1 then (c, false)
    else
      var link := SerialTime.HandOver(c.link, c.servo.seqNum);
      var clock := c.clock.(serialTimeError := c.link.diff);
      if !link.doRead then (c.(link := link, clock := clock), true)
      else
        var blocked := c.(link := link, clock := clock.(blockDetect := BLOCK_FOR_3));
        if !e.threadOk then (blocked, false)
        else (blocked.(link := SerialTime.Check(link, e.reading)), true)
  }

  /** `getInterruptDelay`. */
  function GetInterruptDelay(s: Servo, io: Calibration): (r: (Servo, bool))
    requires s.Wf()
    ensures r.0.Wf()
  {
    if !io.setOk || io.delay.None? then (s, false)
    else (s.(latency := Measure(s.latency, io.delay.value, s.hardLimit)), io.resetOk)
  }

  /** The rest of a pass after `readPPS_SetTime` went well and did not restart. */
  function Finish(c: Client, cfg: Config, e: Pass): (r: (Client, bool))
    requires c.servo.Wf()
    ensures r.0.servo.Wf()
  {
    var q := if cfg.doSerialsettime then QuerySerial(c, e) else (c, true);
    if q.1 && e.pulse.Some? && !c.servo.isDelaySpike && cfg.doCalibration && c.servo.hardLimit == HARD_LIMIT_1 then
      var g := GetInterruptDelay(c.servo, e.calibration);
      (q.0.(servo := g.0), g.1)
    else q
  }

  /** The vote of the SNTP servers, if SNTP is enabled and a vote was completed. */
  function TakeVote(c: Client, cfg: Config, e: Pass): Client {
    if cfg.doNTPsettime && e.consensus.Some? then c.(clock := c.clock.(consensusTimeError := e.consensus.value)) else c
  }

  /** One pass of the loop. */
  function Step(c: Client, cfg: Config, e: Pass): (o: Outcome)
    requires c.servo.Wf()
    ensures o.client.servo.Wf()
  {
    var voted := TakeVote(c, cfg, e);
    var o := ReadPPS(voted, cfg, e);
    if !o.ok || RestartsIn(voted, cfg, e) then o
    else
      var f := Finish(o.client, cfg, e);
      o.(client := f.0, ok := f.1)
  }

  /** Whether a pass gets as far as `processFiles`. */
  predicate Processes(c: Client, cfg: Config, e: Pass)
    requires c.servo.Wf()
  {
    var o := ReadPPS(TakeVote(c, cfg, e), cfg, e);
    && o.ok && !RestartsIn(TakeVote(c, cfg, e), cfg, e)
    && Finish(o.client, cfg, e).1 && e.pulse.Some? && !o.client.servo.isDelaySpike
  }

  /** The switches after a pass: a restart sets them back, and every accepted pulse has the file processed. */
  function NextConfig(c: Client, cfg: Config, e: Pass): Config
    requires c.servo.Wf()
  {
    var voted := TakeVote(c, cfg, e);
    if ReadPPS(voted, cfg, e).ok && RestartsIn(voted, cfg, e) then Defaults
    else if Processes(c, cfg, e) then Process(cfg, e.settings)
    else cfg
  }

  datatype Progress = Progress(client: Client, cfg: Config, ok: bool)

  /** The loop of `waitForPPS` over some passes; it ends early when a pass fails. */
  function Loop(c: Client, cfg: Config, passes: seq<Pass>): (r: Progress)
    requires c.servo.Wf()
    ensures r.client.servo.Wf()
  {
    if passes == [] then Progress(c, cfg, true)
    else
      var r := Loop(c, cfg, passes[..|passes| - 1]);
      var e := passes[|passes| - 1];
      if !r.ok then r
      else
        var o := Step(r.client, r.cfg, e);
        Progress(o.client, NextConfig(r.client, r.cfg, e), o.ok)
  }
}
