/** What one pass of the loop does besides driving the controller: fractions cancelled, switches, calibration, blocking. */
module LoopOutcomes {
  import opened Wrappers
  import opened Arith
  import opened Configuration
  import opened Constants
  import InterruptDelay
  import opened Limiter
  import opened Servo
  import opened SystemClock
  import opened MainLoop
  import opened ClockRuns
  import L = LoopRuns
  import SerialTime

  // ----- an external change

  /** The fractions of a second written to the driver. */
  function MicroWrites(injected: seq<Injection>): seq<int> {
    if injected == [] then []
    else (if injected[0].Microseconds? then [injected[0].usec] else []) + MicroWrites(injected[1..])
  }

  lemma {:induction false} MicroWritesAppend(x: seq<Injection>, y: seq<Injection>)
    ensures MicroWrites(x + y) == MicroWrites(x) + MicroWrites(y)
  {
    if x == [] {
      assert x + y == y;
    } else {
      assert (x + y)[0] == x[0] && (x + y)[1..] == x[1..] + y;
      MicroWritesAppend(x[1..], y);
    }
  }

  lemma SetSecondsWritesNoFraction(c: Clock, cfg: Config, p: Pulse)
    ensures MicroWrites(SetSeconds(c, cfg, p).injected) == []
  {
    var ntp := SetNTP(c, cfg, p);
    MicroWritesAppend(ntp.injected, SetSerial(ntp.clock, cfg, p).injected);
  }

  /** The reading as a fraction between half a second before and half a second after the whole second. */
  ghost predicate IsFraction(x: int, usec: int) {
    -500000 < x <= 500000 && (x - usec) % 1000000 == 0
  }

  /**
   * A step that goes well gives the controller the fraction of a second that was read, against its reference. If it
   * reports a change it instead cancels that fraction with a single write, and gives the controller an error of zero;
   * a step that reports nothing writes no fraction.
   */
  lemma ReportCancelsFraction(c: Client, cfg: Config, p: Pulse)
    requires c.servo.Wf() && 0 <= p.usec < 1000000 && c.servo.latency.sysDelay <= 500000
    ensures var o := MakeTimeCorrection(c, cfg, p);
      && (o.ok && o.reported ==>
            o.client.servo == Tick(c.servo, 0) &&
            exists x :: IsFraction(x, p.usec) && MicroWrites(o.injected) == [-x])
      && (o.ok && !o.reported ==>
            MicroWrites(o.injected) == [] &&
            exists x :: IsFraction(x, p.usec) && o.client.servo == Tick(c.servo, x - c.servo.latency.sysDelay))
      && (o.reported && !p.fractionOk ==> !o.ok)
  {
    hide Tick;
    var r := SetSeconds(c.clock, cfg, p);
    SetSecondsWritesNoFraction(c.clock, cfg, p);
    if r.ok {
      var d := c.(clock := r.clock);
      var servo := Tick(c.servo, UsedTime(d, p) - c.servo.latency.sysDelay);
      MicroWritesAppend(r.injected, CorrectWith(d, p, servo).injected);
      assert IsFraction(Fraction(p.usec), p.usec);
    }
  }

  // ----- seconds

  /**
   * The counter starts at the clock's second, counts one for each of the first two pulses and then the monotonic time to
   * the nearest second; the end of a block brings it to the clock's second instead.
   */
  lemma CountsSeconds(c: Clock, seqNum: nat, mono: real, now: int)
    ensures var k := Increase(c, seqNum, mono, now);
      && k.tNow == now && k.monoLast == mono
      && (c.blockDetect == 1 ==> k.tCount == now)
      && (c.blockDetect != 1 && seqNum == 0 ==> k.tCount == now + 1)
      && (c.blockDetect != 1 && seqNum == 1 ==> k.tCount == c.tCount + 1)
      && (c.blockDetect != 1 && seqNum >= 2 ==>
            -0.5 <= (k.tCount - c.tCount) as real - (mono - c.monoLast) <= 0.5)
  {
    assert Round(1.0) == 1;
    assert mono - (mono - 1.0) == 1.0;
  }

  // ----- switches

  /** The switches after a pass that goes well: the defaults after a restart, the file's after an accepted pulse. */
  lemma SwitchesAfter(c: Client, cfg: Config, e: Pass)
    requires c.servo.Wf() && Step(c, cfg, e).ok
    ensures var o, next := Step(c, cfg, e), NextConfig(c, cfg, e);
      if e.pulse.Some? && o.client.servo.seqNum == 0 then next == Config(true, false, true)
      else if e.pulse.Some? && !o.client.servo.isDelaySpike && e.settings.Some? then next == Apply(cfg, e.settings.value)
      else next == cfg
  {
    hide MakeTimeCorrection;
    var voted := TakeVote(c, cfg, e);
    if e.pulse.Some? {
      L.MakeTimeCorrectionWrites(L.Counted(voted, e), cfg, e.pulse.value);
    }
    L.FinishKeepsVote(ReadPPS(voted, cfg, e).client, cfg, e);
    FinishKeeps(ReadPPS(voted, cfg, e).client, cfg, e);
  }

  /** With calibration switched off a pass never measures the latency. */
  lemma CalibrationOff(c: Client, cfg: Config, e: Pass)
    requires c.servo.Wf() && !cfg.doCalibration
    ensures L.MeasuredDelay(c, cfg, e) == None
    ensures Finish(c, cfg, e).0.servo == c.servo
  {
  }

  /** With it on, at limit 1 and after an accepted pulse, the delay that the driver reports is measured once. */
  lemma CalibrationOn(c: Client, cfg: Config, e: Pass)
    requires c.servo.Wf() && cfg.doCalibration && (cfg.doSerialsettime ==> QuerySerial(c, e).1)
    requires e.pulse.Some? && !c.servo.isDelaySpike && c.servo.hardLimit == 1
    ensures var f, io := Finish(c, cfg, e), e.calibration;
      if io.setOk && io.delay.Some?
      then f.0.servo.latency == InterruptDelay.Measure(c.servo.latency, io.delay.value, 1) && f.1 == io.resetOk
      else f.0.servo == c.servo && !f.1
  {
  }

  // ----- how long detection stays blocked

  /** A pass that writes a vote, or starts to read the serial port. */
  ghost predicate Blocks(w: World, e: Event)
    requires w.client.servo.Wf()
  {
    || WrittenVote(w, e)
    || (w.cfg.doSerialsettime && Advance(w, e).client.link.doRead)
  }

  ghost predicate WrittenVote(w: World, e: Event) {
    L.WritesVote(w.client.clock.consensusTimeError, w.cfg, Timed(w, e))
  }

  ghost predicate RestartedBy(w: World, e: Event)
    requires w.client.servo.Wf()
  {
    e.pass.pulse.Some? && Advance(w, e).client.servo.seqNum == 0
  }

  /** The block that a pass leaves: 3 if it sets one, else one less than before, and none after a restart. */
  lemma BlockAfter(w: World, e: Event)
    requires w.ok && w.client.servo.Wf() && Advance(w, e).ok
    ensures var b, r := w.client.clock.blockDetect, Advance(w, e).client;
      r.clock.blockDetect ==
        if RestartedBy(w, e) then 0 else if Blocks(w, e) then 3 else if b > 0 then b - 1 else 0
  {
    hide Tick;
    var p := Timed(w, e);
    var voted := TakeVote(w.client, w.cfg, p);
    var c := Counted(w.client, w.cfg, p);
    if p.pulse.Some? {
      StepBlocks(c, w.cfg, p.pulse.value);
      StepCounts(c, w.cfg, p.pulse.value);
    }
    FinishBlocks(ReadPPS(voted, w.cfg, p).client, w.cfg, p);
  }

  lemma StepBlocks(c: Client, cfg: Config, p: Pulse)
    requires c.servo.Wf()
    ensures var o := MakeTimeCorrection(c, cfg, p);
      var votes := cfg.doNTPsettime && c.clock.consensusTimeError != 0;
      o.ok ==> o.client.clock.blockDetect == if votes then 3 else c.clock.blockDetect
  {
    hide Tick;
  }

  lemma FinishBlocks(c: Client, cfg: Config, e: Pass)
    requires c.servo.Wf()
    ensures var f := Finish(c, cfg, e);
      f.1 ==>
        && f.0.servo.seqNum == c.servo.seqNum
        && f.0.clock.blockDetect == if cfg.doSerialsettime && f.0.link.doRead then 3 else c.clock.blockDetect
  {
  }

  /** Detection is off in the two passes that follow, and on again in the third if nothing blocks it anew. */
  lemma BlocksForThree(w: World, e: Event, f: Event, g: Event, h: Event)
    requires w.ok && w.client.servo.Wf() && Blocks(w, e)
    requires var w1 := Advance(w, e);
      var w2 := Advance(w1, f);
      var w3 := Advance(w2, g);
      && w3.ok && w2.ok && w1.ok
      && !RestartedBy(w, e) && !RestartedBy(w1, f) && !RestartedBy(w2, g)
      && !Blocks(w1, f) && !Blocks(w2, g)
    ensures var w1 := Advance(w, e);
      var w2 := Advance(w1, f);
      var w3 := Advance(w2, g);
      && !LooksIn(w1, f) && !LooksIn(w2, g)
      && StepClock(w3, h).blockDetect == 0 && StepClock(w3, h).tCount == StepClock(w3, h).tNow
  {
    hide Advance, Blocks, RestartedBy;
    BlockAfter(w, e);
    BlockAfter(Advance(w, e), f);
    BlockAfter(Advance(Advance(w, e), f), g);
  }
}
