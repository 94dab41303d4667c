/**
 * Runs of the whole loop against a system clock whose whole seconds advance with the monotonic clock,
 * by the client's own corrections, and by external sets: which changes the client reports as external.
 */
module ClockRuns {
  import opened Wrappers
  import opened Arith
  import opened Configuration
  import opened Constants
  import opened Limiter
  import opened Noise
  import opened Servo
  import opened SystemClock
  import opened MainLoop
  import SerialTime

  /** The client and its switches, the clocks as last read or set, the number of reports, and whether the loop still runs. */
  datatype World = World(client: Client, cfg: Config, wall: int, mono: real, reports: nat, ok: bool)

  /** A pass, and the whole seconds that somebody else added to the system clock since the last one. */
  datatype Event = Event(pass: Pass, externalSet: int)

  /** The world at program start. */
  function Started(abs: AbsOverload, file: File, wall: int, mono: real): (w: World)
    ensures w.client.servo.Wf()
  {
    World(Initialized(abs), Apply(Defaults, file), wall, mono, 0, true)
  }

  /** What `gettimeofday` reads in this pass. */
  function Now(w: World, e: Event): int {
    w.wall + Round(e.pass.mono - w.mono) + e.externalSet
  }

  function Timed(w: World, e: Event): Pass {
    e.pass.(now := Now(w, e))
  }

  function Advance(w: World, e: Event): (r: World)
    requires w.client.servo.Wf()
    ensures r.client.servo.Wf()
  {
    if !w.ok then w
    else
      var o := Step(w.client, w.cfg, Timed(w, e));
      World(o.client, NextConfig(w.client, w.cfg, Timed(w, e)), Now(w, e) + SecondsInjected(o.injected), e.pass.mono,
            w.reports + if o.reported then 1 else 0, o.ok)
  }

  function Run(w: World, events: seq<Event>): (r: World)
    requires w.client.servo.Wf()
    ensures r.client.servo.Wf()
    decreases |events|
  {
    if events == [] then w else Run(Advance(w, events[0]), events[1..])
  }

  // ----- the controller's age

  /** Before the sixtieth pulse nothing is limited or rejected; from then on the controller is in control. */
  ghost predicate Aged(s: Servo) {
    && s.Wf()
    && (s.seqNum < SECS_PER_MINUTE ==> s.hardLimit == HARD_LIMIT_NONE && s.activeCount == 0)
    && (s.seqNum >= SECS_PER_MINUTE ==> s.isControlling && s.slewIsLow)
  }

  /** What a reading makes of such a controller, before the restart test. */
  ghost predicate Ticked(s: Servo, t: Servo) {
    && t.Wf() && t.seqNum == s.seqNum + 1
    && (t.seqNum < SECS_PER_MINUTE ==>
          t.hardLimit == HARD_LIMIT_NONE && t.activeCount == 0 && !t.isDelaySpike && !t.isControlling)
    && (t.isControlling ==> t.slewIsLow)
  }

  lemma AgedTick(s: Servo, rawError: int)
    requires Aged(s)
    ensures Ticked(s, Tick(s, rawError))
  {
  }

  lemma InjectedSeconds(x: seq<Injection>, y: seq<Injection>)
    requires |x| <= 2 && |y| <= 1
    ensures SecondsInjected(x + y) == SecondsInjected(x) + SecondsInjected(y)
  {
    if |x| == 0 {
      assert x + y == y;
    } else {
      assert (x + y)[1..] == x[1..] + y;
      if |x| == 2 {
        assert (x + y)[1..][1..] == y && x[1..][1..] == [];
      }
    }
  }

  // ----- a ledger of the whole seconds that the counter is behind the clock

  /** How far the counter is behind once a pass has counted: the end of a block brings it up to date. */
  function Behind(w: World, e: Event, lag: int): int {
    if w.client.clock.blockDetect == 1 then 0 else lag + e.externalSet
  }

  /** The clock that the step of a pass works on. */
  function Counted(c: Client, cfg: Config, e: Pass): Client {
    var voted := TakeVote(c, cfg, e);
    voted.(clock := Increase(voted.clock, c.servo.seqNum, e.mono, e.now))
  }

  function StepClock(w: World, e: Event): Clock {
    Counted(w.client, w.cfg, Timed(w, e)).clock
  }

  /** The whole seconds that the pass applies for the serial link. */
  function Applied(w: World, e: Event): int {
    if e.pass.pulse.None? then 0 else SerialSeconds(StepClock(w, e), w.cfg, e.pass.pulse.value)
  }

  /** The pass looks for an external change. */
  predicate LooksIn(w: World, e: Event) {
    e.pass.pulse.Some? && Looks(StepClock(w, e), w.cfg, e.pass.pulse.value, w.client.servo.seqNum, w.client.servo.slew.avg)
  }

  /** It looks, and the serial seconds that it applies are not those that the counter is behind. */
  predicate Alarm(w: World, e: Event, lag: int) {
    LooksIn(w, e) && Behind(w, e, lag) != Applied(w, e)
  }

  /**
   * The lag after a pass. An alarm, and any of the first 59 pulses, has the counter copy the clock, which does not show
   * the seconds applied in the same pass yet; else those seconds move both.
   */
  function NextLag(w: World, e: Event, lag: int): int {
    if e.pass.pulse.Some? && (Alarm(w, e, lag) || w.client.servo.seqNum + 1 < SECS_PER_MINUTE) then Applied(w, e)
    else Behind(w, e, lag)
  }

  /** The alarms of a run, until the loop ends. */
  function Alarms(w: World, events: seq<Event>, lag: int): nat
    requires w.client.servo.Wf()
    decreases |events|
  {
    if events == [] || !w.ok then 0
    else (if Alarm(w, events[0], lag) then 1 else 0) + Alarms(Advance(w, events[0]), events[1..], NextLag(w, events[0], lag))
  }

  function LagAfter(w: World, events: seq<Event>, lag: int): int
    requires w.client.servo.Wf()
    decreases |events|
  {
    if events == [] || !w.ok then lag else LagAfter(Advance(w, events[0]), events[1..], NextLag(w, events[0], lag))
  }

  // ----- the ledger is right

  /** From the second pulse on the counter is `lag` seconds behind the clock, unless a block will bring it up to date. */
  ghost predicate Tracked(w: World, lag: int) {
    var c, s := w.client.clock, w.client.servo;
    && Aged(s)
    && (s.seqNum >= 1 ==> c.monoLast == w.mono)
    && (s.seqNum >= 2 && c.blockDetect == 0 ==> c.tCount + lag == w.wall)
  }

  lemma CountedIsBehind(w: World, e: Event, lag: int)
    requires Tracked(w, lag)
    ensures var c := StepClock(w, e);
      && c.tNow == Now(w, e) && c.monoLast == e.pass.mono
      && (w.client.servo.seqNum >= 2 && c.blockDetect == 0 ==> c.tNow - c.tCount == Behind(w, e, lag))
  {
  }

  /** A step from the check for external changes on, whatever the reading makes of the controller. */
  lemma CorrectedOutcome(c: Client, cfg: Config, p: Pulse, servo: Servo)
    requires SetSeconds(c.clock, cfg, p).ok
    ensures var r := SetSeconds(c.clock, cfg, p);
      var o := CorrectWith(c.(clock := r.clock), p, servo);
      var applied := SerialSeconds(c.clock, cfg, p);
      var gap := c.clock.tNow - c.clock.tCount;
      && (o.reported <==> Looks(c.clock, cfg, p, c.servo.seqNum, c.servo.slew.avg) && gap != applied)
      && o.client.link == c.link
      && (o.ok ==> o.client.servo == servo && o.client.clock.monoLast == c.clock.monoLast)
      && (o.ok && o.client.clock.blockDetect == 0 ==>
            && c.clock.blockDetect == 0
            && c.clock.tNow + SecondsInjected(r.injected + o.injected) - o.client.clock.tCount ==
                 if o.reported || (!servo.isDelaySpike && !servo.isControlling) then applied else gap)
  {
    var r := SetSeconds(c.clock, cfg, p);
    InjectedSeconds(r.injected, CorrectWith(c.(clock := r.clock), p, servo).injected);
  }

  /**
   * For every state of the client, exactly when a step reports a change: nothing blocks, no vote is pending, no serial
   * write fails, more than ten pulses were read, the slew is below 65, and the serial seconds that the step has just
   * added to the counter are not those that the counter was behind the clock.
   */
  lemma ReportedIff(c: Client, cfg: Config, p: Pulse)
    requires c.servo.Wf()
    ensures var k := c.clock;
      var votes := cfg.doNTPsettime && k.consensusTimeError != 0;
      var corrects := cfg.doSerialsettime && k.serialTimeError != 0;
      MakeTimeCorrection(c, cfg, p).reported <==>
        && k.blockDetect == 0 && !votes && (corrects ==> p.serialOk)
        && c.servo.seqNum > 10 && -65.0 < c.servo.slew.avg < 65.0
        && k.tNow - k.tCount != if corrects then k.serialTimeError else 0
  {
    hide Tick;
    var r := SetSeconds(c.clock, cfg, p);
    if r.ok {
      CorrectedOutcome(c, cfg, p, Tick(c.servo, UsedTime(c.(clock := r.clock), p) - c.servo.latency.sysDelay));
    }
  }

  /** What a step leaves behind if it goes well and does not restart. */
  lemma StepOutcome(c: Client, cfg: Config, p: Pulse)
    requires Aged(c.servo)
    ensures var o := MakeTimeCorrection(c, cfg, p);
      var gap := c.clock.tNow - c.clock.tCount;
      && o.client.link == c.link
      && (o.ok && !NeedsRestart(o.client.servo) ==>
            && Aged(o.client.servo) && o.client.servo.seqNum == c.servo.seqNum + 1
            && o.client.clock.monoLast == c.clock.monoLast
            && (o.client.clock.blockDetect == 0 ==>
                  && c.clock.blockDetect == 0
                  && c.clock.tNow + SecondsInjected(o.injected) - o.client.clock.tCount ==
                       if o.reported || c.servo.seqNum + 1 < SECS_PER_MINUTE then SerialSeconds(c.clock, cfg, p) else gap))
  {
    hide Tick;
    var r := SetSeconds(c.clock, cfg, p);
    if r.ok {
      var rawError := UsedTime(c.(clock := r.clock), p) - c.servo.latency.sysDelay;
      AgedTick(c.servo, rawError);
      CorrectedOutcome(c, cfg, p, Tick(c.servo, rawError));
    }
  }

  lemma RestartIsAged(abs: AbsOverload, calls: seq<Adj>)
    ensures Aged(Reset(abs, calls)) && Reset(abs, calls).seqNum == 0
  {
  }

  /** The end of a pass may block detection, but moves neither the counter nor the clock. */
  lemma FinishKeeps(c: Client, cfg: Config, e: Pass)
    requires c.servo.Wf()
    ensures var f := Finish(c, cfg, e).0;
      && f.servo.(latency := c.servo.latency) == c.servo
      && f.clock.tCount == c.clock.tCount && f.clock.monoLast == c.clock.monoLast
      && (f.clock.blockDetect == 0 ==> c.clock.blockDetect == 0)
  {
  }

  lemma ReadPPSTracked(w: World, e: Event, lag: int)
    requires w.ok && Tracked(w, lag)
    ensures var p := Timed(w, e);
      var voted := TakeVote(w.client, w.cfg, p);
      var o := ReadPPS(voted, w.cfg, p);
      && (o.reported <==> Alarm(w, e, lag))
      && (o.ok && !RestartsIn(voted, w.cfg, p) ==>
            Tracked(World(o.client, w.cfg, p.now + SecondsInjected(o.injected), p.mono, 0, true), NextLag(w, e, lag)))
      && (o.ok && RestartsIn(voted, w.cfg, p) ==> Aged(o.client.servo) && o.client.servo.seqNum == 0)
  {
    hide MakeTimeCorrection;
    var p := Timed(w, e);
    var c := Counted(w.client, w.cfg, p);
    CountedIsBehind(w, e, lag);
    if p.pulse.Some? {
      ReportedIff(c, w.cfg, p.pulse.value);
      StepOutcome(c, w.cfg, p.pulse.value);
      var o := MakeTimeCorrection(c, w.cfg, p.pulse.value);
      RestartIsAged(o.client.servo.abs, o.client.servo.adjtimex);
    }
  }

  /** One pass reports exactly its alarm, and the ledger stays right. */
  lemma AdvanceTracked(w: World, e: Event, lag: int)
    requires w.ok && Tracked(w, lag)
    ensures var r := Advance(w, e);
      && r.reports == w.reports + (if Alarm(w, e, lag) then 1 else 0)
      && (r.ok ==> Tracked(r, NextLag(w, e, lag)))
  {
    hide Tick, ReadPPS, Finish, NextConfig, Alarm, NextLag;
    var p := Timed(w, e);
    var voted := TakeVote(w.client, w.cfg, p);
    ReadPPSTracked(w, e, lag);
    FinishKeeps(ReadPPS(voted, w.cfg, p).client, w.cfg, p);
  }

  lemma {:induction false} StoppedRun(w: World, events: seq<Event>)
    requires w.client.servo.Wf() && !w.ok
    ensures Run(w, events) == w
    decreases |events|
  {
    if events != [] {
      StoppedRun(w, events[1..]);
    }
  }

  lemma {:induction false} TrackedRun(w: World, events: seq<Event>, lag: int)
    requires w.client.servo.Wf() && (w.ok ==> Tracked(w, lag))
    ensures var r := Run(w, events);
      && r.reports == w.reports + Alarms(w, events, lag)
      && (r.ok ==> Tracked(r, LagAfter(w, events, lag)))
    decreases |events|
  {
    hide Advance, Tracked, Alarm, NextLag;
    if events == [] {
    } else if !w.ok {
      StoppedRun(w, events);
    } else {
      AdvanceTracked(w, events[0], lag);
      TrackedRun(Advance(w, events[0]), events[1..], NextLag(w, events[0], lag));
    }
  }

  lemma StartIsTracked(abs: AbsOverload, file: File, wall: int, mono: real)
    ensures Tracked(Started(abs, file, wall, mono), 0)
  {
    RestartIsAged(abs, []);
  }

  /**
   * For every run from program start, with any external sets, any history of the configuration file, any votes, serial
   * readings, failed writes, lost pulses and restarts: the reports are exactly the alarms of the ledger.
   */
  lemma ReportsAreExact(abs: AbsOverload, file: File, wall: int, mono: real, events: seq<Event>)
    ensures var w := Started(abs, file, wall, mono);
      && Run(w, events).reports == Alarms(w, events, 0)
      && (Run(w, events).ok ==> Tracked(Run(w, events), LagAfter(w, events, 0)))
  {
    StartIsTracked(abs, file, wall, mono);
    TrackedRun(Started(abs, file, wall, mono), events, 0);
  }

  // ----- own corrections

  /** Every pass that looks for an external change applies exactly the serial seconds that the counter is behind. */
  ghost predicate CaughtUp(w: World, events: seq<Event>, lag: int)
    requires w.client.servo.Wf()
    decreases |events|
  {
    events == [] || !w.ok ||
    (&& (LooksIn(w, events[0]) ==> Applied(w, events[0]) == Behind(w, events[0], lag))
     && CaughtUp(Advance(w, events[0]), events[1..], NextLag(w, events[0], lag)))
  }

  lemma {:induction false} CaughtUpIff(w: World, events: seq<Event>, lag: int)
    requires w.client.servo.Wf()
    ensures Alarms(w, events, lag) == 0 <==> CaughtUp(w, events, lag)
    decreases |events|
  {
    hide Advance, NextLag, LooksIn, Applied, Behind;
    if events != [] {
      CaughtUpIff(Advance(w, events[0]), events[1..], NextLag(w, events[0], lag));
    }
  }

  ghost predicate NoExternalSets(events: seq<Event>) {
    forall k :: 0 <= k < |events| ==> events[k].externalSet == 0
  }

  /** Without external sets the counter is never behind by anything but serial seconds applied before, or nothing. */
  lemma OwnLag(w: World, e: Event, lag: int)
    requires e.externalSet == 0
    ensures NextLag(w, e, lag) == lag || NextLag(w, e, lag) == 0 || NextLag(w, e, lag) == Applied(w, e)
  {
  }

  /**
   * Exactly when a run without external sets never takes one of the client's own corrections for an external change:
   * whenever it looks, the serial seconds that it applies are those that earlier serial corrections left it behind.
   */
  lemma NeverMisledIff(abs: AbsOverload, file: File, wall: int, mono: real, events: seq<Event>)
    requires NoExternalSets(events)
    ensures var w := Started(abs, file, wall, mono);
      Run(w, events).reports == 0 <==> CaughtUp(w, events, 0)
  {
    ReportsAreExact(abs, file, wall, mono, events);
    CaughtUpIff(Started(abs, file, wall, mono), events, 0);
  }

  // ----- a guard that keeps own corrections apart from external sets

  /** From the eleventh pulse on no serial correction is applied while nothing blocks detection and no vote is about to. */
  ghost predicate Guarded(w: World, events: seq<Event>)
    requires w.client.servo.Wf()
    decreases |events|
  {
    events == [] || !w.ok ||
    (GuardedPass(w, events[0]) && Guarded(Advance(w, events[0]), events[1..]))
  }

  ghost predicate GuardedPass(w: World, e: Event) {
    var c := StepClock(w, e);
    w.client.servo.seqNum >= SLEW_LEN && c.blockDetect == 0 && !WantsNTP(c, w.cfg) ==> Applied(w, e) == 0
  }

  /** Detection is enabled, the slew is low, and no correction of the client's own is about to be made. */
  ghost predicate Watching(w: World, e: Event) {
    var c := w.client.clock;
    && c.blockDetect == 0 && w.client.servo.seqNum > 10 && -65.0 < w.client.servo.slew.avg < 65.0
    && (w.cfg.doNTPsettime ==> (if e.pass.consensus.Some? then e.pass.consensus.value else c.consensusTimeError) == 0)
    && (w.cfg.doSerialsettime ==> c.serialTimeError == 0)
  }

  /** The drift after an event: a pulse that is read ends it. */
  function NextDrift(e: Event, drift: int): int {
    if e.pass.pulse.Some? then 0 else drift + e.externalSet
  }

  /** While the clock is off by external sets that no pulse has ended yet, the client watches. */
  ghost predicate SetsAreWatched(w: World, events: seq<Event>, drift: int)
    requires w.client.servo.Wf()
    decreases |events|
  {
    events == [] || !w.ok ||
    (&& (drift + events[0].externalSet != 0 ==> Watching(w, events[0]))
     && SetsAreWatched(Advance(w, events[0]), events[1..], NextDrift(events[0], drift)))
  }

  /** The pulses read, until the loop ends, that find the clock off by the external sets made since the pulse before. */
  function Drifts(w: World, events: seq<Event>, drift: int): nat
    requires w.client.servo.Wf()
    decreases |events|
  {
    if events == [] || !w.ok then 0
    else (if events[0].pass.pulse.Some? && drift + events[0].externalSet != 0 then 1 else 0) +
         Drifts(Advance(w, events[0]), events[1..], NextDrift(events[0], drift))
  }

  function DriftAfter(events: seq<Event>, drift: int): int
    decreases |events|
  {
    if events == [] then drift else DriftAfter(events[1..], NextDrift(events[0], drift))
  }

  /** Once detection can be on, the lag is the drift. */
  ghost predicate LagIsDrift(w: World, lag: int, drift: int) {
    w.client.servo.seqNum > SLEW_LEN && w.client.clock.blockDetect == 0 ==> lag == drift
  }

  /** A pulse that restarts nothing counts one; a pass ends blocked unless its step did not block. */
  lemma AdvanceCounts(w: World, e: Event)
    requires w.ok && w.client.servo.Wf()
    ensures var r := Advance(w, e);
      r.ok && r.client.servo.seqNum > 0 ==>
        && r.client.servo.seqNum == w.client.servo.seqNum + (if e.pass.pulse.Some? then 1 else 0)
        && (r.client.clock.blockDetect == 0 ==>
              StepClock(w, e).blockDetect == 0 && (e.pass.pulse.Some? ==> !WantsNTP(StepClock(w, e), w.cfg)))
  {
    hide Tick;
    var p := Timed(w, e);
    var voted := TakeVote(w.client, w.cfg, p);
    var c := Counted(w.client, w.cfg, p);
    if p.pulse.Some? {
      StepCounts(c, w.cfg, p.pulse.value);
    }
    FinishKeeps(ReadPPS(voted, w.cfg, p).client, w.cfg, p);
  }

  lemma StepCounts(c: Client, cfg: Config, p: Pulse)
    requires c.servo.Wf()
    ensures var o := MakeTimeCorrection(c, cfg, p);
      o.ok ==>
        && o.client.servo.seqNum == c.servo.seqNum + 1
        && (o.client.clock.blockDetect == 0 ==> c.clock.blockDetect == 0 && !WantsNTP(c.clock, cfg))
  {
    hide Tick;
    var r := SetSeconds(c.clock, cfg, p);
    TickCounts(c.servo, UsedTime(c.(clock := r.clock), p) - c.servo.latency.sysDelay);
  }

  lemma TickCounts(s: Servo, rawError: int)
    requires s.Wf()
    ensures Tick(s, rawError).seqNum == s.seqNum + 1
  {
  }

  lemma GuardedAlarm(w: World, e: Event, lag: int, drift: int)
    requires w.ok && Tracked(w, lag) && LagIsDrift(w, lag, drift) && GuardedPass(w, e)
    requires drift + e.externalSet != 0 ==> Watching(w, e)
    ensures Alarm(w, e, lag) <==> e.pass.pulse.Some? && drift + e.externalSet != 0
    ensures var r := Advance(w, e); r.ok ==> LagIsDrift(r, NextLag(w, e, lag), NextDrift(e, drift))
  {
    hide Advance;
    AdvanceCounts(w, e);
  }

  lemma {:induction false} GuardedRun(w: World, events: seq<Event>, lag: int, drift: int)
    requires w.client.servo.Wf() && (w.ok ==> Tracked(w, lag) && LagIsDrift(w, lag, drift))
    requires Guarded(w, events) && SetsAreWatched(w, events, drift)
    ensures Alarms(w, events, lag) == Drifts(w, events, drift)
    ensures Run(w, events).ok ==> LagIsDrift(Run(w, events), LagAfter(w, events, lag), DriftAfter(events, drift))
    decreases |events|
  {
    hide Advance, Tracked, LagIsDrift, Alarm, NextLag, GuardedPass, Watching;
    if events == [] {
    } else if !w.ok {
      StoppedRun(w, events);
    } else {
      AdvanceTracked(w, events[0], lag);
      GuardedAlarm(w, events[0], lag, drift);
      GuardedRun(Advance(w, events[0]), events[1..], NextLag(w, events[0], lag), NextDrift(events[0], drift));
    }
  }

  /**
   * For every guarded run from program start, whatever the configuration file does, whose external sets are made while
   * the client watches: the reports are exactly the pulses that find the clock off by external sets. Each such
   * difference is reported once, and nothing else is.
   */
  lemma ReportsAreExternal(abs: AbsOverload, file: File, wall: int, mono: real, events: seq<Event>)
    requires Guarded(Started(abs, file, wall, mono), events)
    requires SetsAreWatched(Started(abs, file, wall, mono), events, 0)
    ensures var w := Started(abs, file, wall, mono);
      Run(w, events).reports == Drifts(w, events, 0)
  {
    ReportsAreExact(abs, file, wall, mono, events);
    StartIsTracked(abs, file, wall, mono);
    GuardedRun(Started(abs, file, wall, mono), events, 0, 0);
  }

  lemma {:induction false} NoSetsNoDrifts(w: World, events: seq<Event>)
    requires w.client.servo.Wf() && NoExternalSets(events)
    ensures SetsAreWatched(w, events, 0) && Drifts(w, events, 0) == 0 && DriftAfter(events, 0) == 0
    decreases |events|
  {
    hide Advance, Watching;
    if events != [] {
      NoSetsNoDrifts(Advance(w, events[0]), events[1..]);
    }
  }

  /** A guarded run without external sets reports nothing. */
  lemma OwnCorrectionsAreNeverReported(abs: AbsOverload, file: File, wall: int, mono: real, events: seq<Event>)
    requires Guarded(Started(abs, file, wall, mono), events) && NoExternalSets(events)
    ensures Run(Started(abs, file, wall, mono), events).reports == 0
  {
    NoSetsNoDrifts(Started(abs, file, wall, mono), events);
    ReportsAreExternal(abs, file, wall, mono, events);
  }

  function TotalSet(events: seq<Event>): int {
    if events == [] then 0 else events[0].externalSet + TotalSet(events[1..])
  }

  /** No pulse is read, and in every pass the client would look for an external change if one were. */
  ghost predicate WatchesWithoutPulse(w: World, events: seq<Event>)
    requires w.client.servo.Wf()
    decreases |events|
  {
    events == [] ||
    (&& events[0].pass.pulse.None? && Watching(w, events[0])
     && WatchesWithoutPulse(Advance(w, events[0]), events[1..]))
  }

  lemma {:induction false} LostPulsesDrift(w: World, lost: seq<Event>, drift: int)
    requires w.client.servo.Wf() && WatchesWithoutPulse(w, lost)
    ensures SetsAreWatched(w, lost, drift) && Drifts(w, lost, drift) == 0
    ensures DriftAfter(lost, drift) == drift + TotalSet(lost)
    ensures Guarded(w, lost)
    decreases |lost|
  {
    hide Advance, Watching;
    if lost != [] {
      LostPulsesDrift(Advance(w, lost[0]), lost[1..], drift + lost[0].externalSet);
    }
  }

  /**
   * After any run from program start, whatever its file and its sets were: whole-second external sets made while the
   * client watches, over any number of lost pulses, are reported by the first pulse read if they and what the counter was
   * behind before do not cancel out, and never again in any guarded continuation without external sets.
   */
  lemma ExternalSetIsReportedOnce(abs: AbsOverload, file: File, wall: int, mono: real,
                                  before: seq<Event>, lost: seq<Event>, hit: Event, rest: seq<Event>)
    requires var w := Run(Started(abs, file, wall, mono), before);
      && w.ok && WatchesWithoutPulse(w, lost) && Run(w, lost).ok
      && hit.pass.pulse.Some? && Watching(Run(w, lost), hit)
      && Guarded(Advance(Run(w, lost), hit), rest)
    requires NoExternalSets(rest)
    ensures var w := Run(Started(abs, file, wall, mono), before);
      var total := LagAfter(Started(abs, file, wall, mono), before, 0) + TotalSet(lost) + hit.externalSet;
      var first := Advance(Run(w, lost), hit);
      && first.reports == w.reports + (if total != 0 then 1 else 0)
      && Run(first, rest).reports == first.reports
  {
    hide Advance, Tracked, Watching, Run, SetsAreWatched, Alarm, NextLag, LagIsDrift;
    ReportsAreExact(abs, file, wall, mono, before);
    var w, behind := Run(Started(abs, file, wall, mono), before), LagAfter(Started(abs, file, wall, mono), before, 0);
    LagIsItself(w, behind);
    LostPulsesDrift(w, lost, behind);
    TrackedRun(w, lost, behind);
    GuardedRun(w, lost, behind, behind);
    var v, lag := Run(w, lost), LagAfter(w, lost, behind);
    WatchingIsGuarded(v, hit);
    AdvanceTracked(v, hit, lag);
    GuardedAlarm(v, hit, lag, behind + TotalSet(lost));
    var first := Advance(v, hit);
    NoSetsNoDrifts(first, rest);
    TrackedRun(first, rest, NextLag(v, hit, lag));
    GuardedRun(first, rest, NextLag(v, hit, lag), 0);
  }

  lemma LagIsItself(w: World, lag: int)
    ensures LagIsDrift(w, lag, lag)
  {
  }

  lemma WatchingIsGuarded(w: World, e: Event)
    requires Watching(w, e)
    ensures GuardedPass(w, e)
  {
  }
}
