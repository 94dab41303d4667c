/** Runs in which serial time is enabled always or never are guarded, so their own corrections are never reported. */
module FixedSerial {
  import opened Wrappers
  import opened Configuration
  import opened Constants
  import opened Limiter
  import opened Servo
  import opened SystemClock
  import opened MainLoop
  import opened ClockRuns
  import SerialTime

  /** Serial time is either enabled whenever the configuration file is processed, or never. */
  ghost predicate SerialFixed(events: seq<Event>, serial: bool) {
    forall k :: 0 <= k < |events| ==> Says(events[k].pass.settings, serial)
  }

  ghost predicate Says(settings: Option<File>, serial: bool) {
    if serial then settings.Some? && settings.value.serial == Enabled
    else settings.Some? ==> settings.value.serial != Enabled
  }

  /** After a restart serial time is off until the first pulse. */
  ghost predicate SwitchesTrack(cfg: Config, serial: bool, seqNum: nat) {
    cfg.doSerialsettime == serial || (!cfg.doSerialsettime && seqNum == 0)
  }

  /**
   * A serial correction in flight keeps detection blocked until it has been applied, unless it is left over from before
   * a restart, and then it comes before the fourth pulse.
   */
  ghost predicate InFlight(w: World, serial: bool) {
    var c, s, l := w.client.clock, w.client.servo, w.client.link;
    && Aged(s)
    && SwitchesTrack(w.cfg, serial, s.seqNum)
    && (c.serialTimeError != 0 ==> w.cfg.doSerialsettime && (c.blockDetect >= 2 || s.seqNum <= 2))
    && (l.diff != 0 ==> serial && (c.blockDetect == BLOCK_FOR_3 || s.seqNum <= 1))
  }

  /** The same between the PPS reading and the end of the pass, in which `first` pulses were read. */
  ghost predicate MidFlight(c: Client, cfg: Config, serial: bool, first: nat) {
    && Aged(c.servo)
    && (c.clock.serialTimeError != 0 ==>
          cfg.doSerialsettime && first == 0 && (c.clock.blockDetect >= 1 || c.servo.seqNum <= 2))
    && (c.link.diff != 0 ==>
          && serial
          && (if cfg.doSerialsettime then c.clock.blockDetect >= 2 || c.servo.seqNum <= 1 + first else c.servo.seqNum <= first))
  }

  lemma InFlightIsGuarded(w: World, e: Event, serial: bool)
    requires InFlight(w, serial)
    ensures GuardedPass(w, e)
  {
  }

  lemma SerialIsApplied(c: Client, cfg: Config, p: Pulse, serial: bool)
    requires MidFlight(c, cfg, serial, 0)
    ensures var o := MakeTimeCorrection(c, cfg, p);
      o.ok && !NeedsRestart(o.client.servo) ==> MidFlight(o.client, cfg, serial, 1)
  {
    hide Tick;
    StepOutcome(c, cfg, p);
  }

  lemma ReadPPSFlies(c: Client, cfg: Config, e: Pass, serial: bool)
    requires var counted := c.(clock := Increase(c.clock, c.servo.seqNum, e.mono, e.now)); MidFlight(counted, cfg, serial, 0)
    ensures var o := ReadPPS(c, cfg, e);
      && o.client.link == c.link
      && (o.ok && !RestartsIn(c, cfg, e) ==>
            && MidFlight(o.client, cfg, serial, if e.pulse.Some? then 1 else 0)
            && o.client.servo.seqNum == c.servo.seqNum + (if e.pulse.Some? then 1 else 0))
      && (o.ok && RestartsIn(c, cfg, e) ==>
            o.client.servo.seqNum == 0 && o.client.clock == InitialClock && Aged(o.client.servo))
  {
    hide MakeTimeCorrection;
    var counted := c.(clock := Increase(c.clock, c.servo.seqNum, e.mono, e.now));
    if e.pulse.Some? {
      SerialIsApplied(counted, cfg, e.pulse.value, serial);
      StepOutcome(counted, cfg, e.pulse.value);
      var o := MakeTimeCorrection(counted, cfg, e.pulse.value);
      RestartIsAged(o.client.servo.abs, o.client.servo.adjtimex);
    }
  }

  /** The switches after a pass that did not restart; the first pulse is always processed. */
  lemma SwitchesNext(cfg: Config, serial: bool, c: Client, e: Pass, next: Config, seqNum: nat)
    requires SwitchesTrack(cfg, serial, seqNum) && Says(e.settings, serial)
    requires c.servo.seqNum == seqNum + (if e.pulse.Some? then 1 else 0)
    requires e.pulse.Some? && c.servo.seqNum < SECS_PER_MINUTE ==> !c.servo.isDelaySpike
    requires next == if e.pulse.Some? && !c.servo.isDelaySpike then Process(cfg, e.settings) else cfg
    ensures SwitchesTrack(next, serial, c.servo.seqNum)
    ensures cfg.doSerialsettime ==> next.doSerialsettime
  {
  }

  lemma FinishFlies(c: Client, cfg: Config, serial: bool, e: Pass, next: Config)
    requires MidFlight(c, cfg, serial, if e.pulse.Some? then 1 else 0)
    requires SwitchesTrack(next, serial, c.servo.seqNum) && (cfg.doSerialsettime ==> next.doSerialsettime)
    ensures var f := Finish(c, cfg, e);
      f.1 ==> InFlight(World(f.0, next, 0, e.mono, 0, true), serial)
  {
  }

  /** A young controller rejects nothing. */
  lemma YoungAccepts(c: Client, cfg: Config, e: Pass)
    requires Aged(c.servo)
    ensures var o := ReadPPS(c, cfg, e);
      o.ok && !RestartsIn(c, cfg, e) && e.pulse.Some? && o.client.servo.seqNum < SECS_PER_MINUTE ==> !o.client.servo.isDelaySpike
  {
    hide Tick;
    if e.pulse.Some? {
      var counted := c.(clock := Increase(c.clock, c.servo.seqNum, e.mono, e.now));
      var d := counted.(clock := SetSeconds(counted.clock, cfg, e.pulse.value).clock);
      AgedTick(c.servo, UsedTime(d, e.pulse.value) - c.servo.latency.sysDelay);
    }
  }

  lemma AdvanceFlies(w: World, e: Event, serial: bool)
    requires w.ok && InFlight(w, serial) && Says(e.pass.settings, serial)
    ensures var r := Advance(w, e); r.ok ==> InFlight(r, serial)
  {
    hide Tick, ReadPPS, Finish;
    var p, cfg := Timed(w, e), w.cfg;
    var voted := TakeVote(w.client, cfg, p);
    ReadPPSFlies(voted, cfg, p, serial);
    YoungAccepts(voted, cfg, p);
    var o := ReadPPS(voted, cfg, p);
    if o.ok && !RestartsIn(voted, cfg, p) && Finish(o.client, cfg, p).1 {
      var next := NextConfig(w.client, cfg, p);
      SwitchesNext(cfg, serial, o.client, p, next, w.client.servo.seqNum);
      FinishFlies(o.client, cfg, serial, p, next);
    }
  }

  lemma {:induction false} RunIsGuarded(w: World, events: seq<Event>, serial: bool)
    requires w.client.servo.Wf() && (w.ok ==> InFlight(w, serial)) && SerialFixed(events, serial)
    ensures Guarded(w, events)
    decreases |events|
  {
    hide Advance, InFlight, GuardedPass;
    if events != [] && w.ok {
      InFlightIsGuarded(w, events[0], serial);
      AdvanceFlies(w, events[0], serial);
      RunIsGuarded(Advance(w, events[0]), events[1..], serial);
    }
  }

  /** Every run from program start whose file never changes its choice of serial time is guarded, restarts included. */
  lemma FixedSerialIsGuarded(abs: AbsOverload, file: File, wall: int, mono: real, events: seq<Event>)
    requires SerialFixed(events, file.serial == Enabled)
    ensures Guarded(Started(abs, file, wall, mono), events)
  {
    StartIsTracked(abs, file, wall, mono);
    RunIsGuarded(Started(abs, file, wall, mono), events, file.serial == Enabled);
  }

  /** So without external sets it reports nothing. */
  lemma FixedSerialIsNeverMisled(abs: AbsOverload, file: File, wall: int, mono: real, events: seq<Event>)
    requires SerialFixed(events, file.serial == Enabled) && NoExternalSets(events)
    ensures Run(Started(abs, file, wall, mono), events).reports == 0
  {
    FixedSerialIsGuarded(abs, file, wall, mono, events);
    OwnCorrectionsAreNeverReported(abs, file, wall, mono, events);
  }
}
