/** Runs of the loop from program start that show how far the theorems of `ClockRuns` reach. */
module ClockExamples {
  import opened Wrappers
  import opened Arith
  import opened Configuration
  import opened Constants
  import opened Limiter
  import opened Noise
  import opened Servo
  import opened SystemClock
  import opened MainLoop
  import opened ClockRuns
  import opened FixedSerial
  import SerialTime

  /** In the first minute, without any error so far. */
  ghost predicate CalmServo(s: Servo, n: nat) {
    && s.Wf() && s.seqNum == n < SECS_PER_MINUTE
    && s.hardLimit == HARD_LIMIT_NONE && s.activeCount == 0 && !s.isControlling && !s.isDelaySpike
    && s.latency.sysDelay == INTERRUPT_LATENCY && s.slew.accum == 0.0 && s.slew.avg == 0.0
  }

  lemma CalmTick(s: Servo, n: nat)
    requires CalmServo(s, n) && n + 1 < SECS_PER_MINUTE
    ensures CalmServo(Tick(s, 0), n + 1) && !NeedsRestart(Tick(s, 0))
  {
  }

  /** A second whose pulse is read without error and whose driver accesses all succeed. */
  function Calm(n: nat, reading: SerialTime.Reading, file: File, externalSet: int): Event {
    Event(Pass(n as real, 0, None, Some(Pulse(INTERRUPT_LATENCY, true, true, true)), reading, true,
               Calibration(true, None, true), Some(file)), externalSet)
  }

  /** The clock of the n-th calm second before and after the serial correction. */
  function SerialSet(w: World, e: Event, n: nat): ClockResult {
    SetSerial(Increase(w.client.clock, n, e.pass.mono, Now(w, e)), w.cfg, Pulse(INTERRUPT_LATENCY, true, true, true))
  }

  lemma CalmReadPPS(c: Client, cfg: Config, e: Pass, n: nat)
    requires CalmServo(c.servo, n) && n + 1 < SECS_PER_MINUTE && c.clock.consensusTimeError == 0
    requires e.pulse == Some(Pulse(INTERRUPT_LATENCY, true, true, true))
    ensures var made := SetSerial(Increase(c.clock, n, e.mono, e.now), cfg, e.pulse.value);
      var o := ReadPPS(c, cfg, e);
      && o.ok && !RestartsIn(c, cfg, e) && CalmServo(o.client.servo, n + 1)
      && (o.reported <==> Reports(made.clock, n, 0.0))
      && o.client.clock == made.clock.(tCount := made.clock.tNow)
      && o.client.link == c.link
      && SecondsInjected(o.injected) == SecondsInjected(made.injected)
  {
    hide Tick;
    CalmTick(c.servo, n);
    var made := SetSerial(Increase(c.clock, n, e.mono, e.now), cfg, e.pulse.value);
    InjectedSeconds([], made.injected);
    assert [] + made.injected == made.injected;
    var o := ReadPPS(c, cfg, e);
    assert o.injected == made.injected ||
           exists usec :: o.injected == made.injected + [Microseconds(usec)];
    if o.injected != made.injected {
      var usec :| o.injected == made.injected + [Microseconds(usec)];
      InjectedSeconds(made.injected, [Microseconds(usec)]);
    }
  }

  /** What a calm second does to the world. */
  lemma CalmAdvance(w: World, e: Event, n: nat)
    requires w.ok && CalmServo(w.client.servo, n) && n + 1 < SECS_PER_MINUTE
    requires w.client.clock.consensusTimeError == 0 && w.client.link.rv != -1
    requires e.pass.settings.Some? && e == Calm(n, e.pass.reading, e.pass.settings.value, e.externalSet)
    ensures var made, r := SerialSet(w, e, n), Advance(w, e);
      var clock := made.clock.(tCount := made.clock.tNow);
      && r.ok && CalmServo(r.client.servo, n + 1)
      && r.reports == w.reports + (if Reports(made.clock, n, 0.0) then 1 else 0)
      && r.wall == Now(w, e) + SecondsInjected(made.injected) && r.mono == e.pass.mono
      && r.cfg == Process(w.cfg, e.pass.settings)
      && r.client == if w.cfg.doSerialsettime then QuerySerial(Client(r.client.servo, clock, w.client.link), e.pass).0
                     else Client(r.client.servo, clock, w.client.link)
  {
    hide ReadPPS;
    CalmReadPPS(w.client, w.cfg, Timed(w, e), n);
  }

  // ----- an external set that is reported

  const Quiet := File(Disabled, Disabled, Unset)

  /** m calm seconds after n pulses. */
  function CalmSeconds(n: nat, m: nat, file: File): (s: seq<Event>)
    ensures |s| == m
    decreases m
  {
    if m == 0 then [] else [Calm(n, SerialTime.NoMessage, file, 0)] + CalmSeconds(n + 1, m - 1, file)
  }

  /** The clock is in step and nothing blocks; serial time is off. */
  ghost predicate InStep(w: World, n: nat) {
    && w.ok && CalmServo(w.client.servo, n) && !w.cfg.doSerialsettime
    && w.client.link.rv != -1
    && var c := w.client.clock;
       && c.consensusTimeError == 0 && c.serialTimeError == 0
       && (n >= 1 ==> c.tCount == w.wall && c.monoLast == w.mono)
  }

  lemma InStepNext(w: World, n: nat, file: File)
    requires InStep(w, n) && n + 1 < SECS_PER_MINUTE && file.serial != Enabled
    ensures var r := Advance(w, Calm(n, SerialTime.NoMessage, file, 0));
      && InStep(r, n + 1) && r.client.link == w.client.link && r.reports == w.reports
      && r.client.clock.blockDetect == (if w.client.clock.blockDetect > 0 then w.client.clock.blockDetect - 1 else 0)
      && r.cfg == Apply(w.cfg, file)
  {
    CalmAdvance(w, Calm(n, SerialTime.NoMessage, file, 0), n);
  }

  /** An external set of seven seconds before the twelfth pulse. */
  function SevenSeconds(): Event {
    Calm(11, SerialTime.NoMessage, Quiet, 7)
  }

  lemma {:induction false} SevenIsWatched(w: World, n: nat, m: nat)
    requires w.client.servo.Wf() && InStep(w, n) && n + m == 11 && w.client.clock.blockDetect == 0
    ensures var events := CalmSeconds(n, m, Quiet) + [SevenSeconds()];
      SetsAreWatched(w, events, 0) && Drifts(w, events, 0) == 1
    decreases m
  {
    hide Advance, InStep;
    var events := CalmSeconds(n, m, Quiet) + [SevenSeconds()];
    if m == 0 {
      assert events == [SevenSeconds()];
      SevenAtOnce(w, events);
    } else {
      var e := Calm(n, SerialTime.NoMessage, Quiet, 0);
      InStepNext(w, n, Quiet);
      SevenIsWatched(Advance(w, e), n + 1, m - 1);
      assert events[0] == e && events[1..] == CalmSeconds(n + 1, m - 1, Quiet) + [SevenSeconds()];
      InStepIsOk(w, n);
    }
  }

  lemma InStepIsOk(w: World, n: nat)
    requires InStep(w, n)
    ensures w.ok
  {
  }

  lemma SevenAtOnce(w: World, events: seq<Event>)
    requires w.client.servo.Wf() && InStep(w, 11) && w.client.clock.blockDetect == 0 && events == [SevenSeconds()]
    ensures SetsAreWatched(w, events, 0) && Drifts(w, events, 0) == 1
  {
    hide Advance;
    assert events[1..] == [];
    assert Drifts(Advance(w, events[0]), events[1..], 0) == 0;
    assert SetsAreWatched(Advance(w, events[0]), events[1..], 0);
  }

  /** A run from program start meets what `ReportsAreExternal` asks for and reports an external set. */
  lemma ExternalSetCanBeReported(abs: AbsOverload, wall: int, mono: real)
    ensures var w := Started(abs, Quiet, wall, mono);
      var events := CalmSeconds(0, 11, Quiet) + [SevenSeconds()];
      && Guarded(w, events) && SetsAreWatched(w, events, 0)
      && Run(w, events).reports == 1
  {
    hide Advance, Drifts;
    var w := Started(abs, Quiet, wall, mono);
    var events := CalmSeconds(0, 11, Quiet) + [SevenSeconds()];
    CalmSerialFixed(0, 11);
    FixedSerialIsGuarded(abs, Quiet, wall, mono, events);
    SevenIsWatched(w, 0, 11);
    ReportsAreExternal(abs, Quiet, wall, mono, events);
  }

  lemma {:induction false} CalmSerialFixed(n: nat, m: nat)
    ensures SerialFixed(CalmSeconds(n, m, Quiet), false)
    decreases m
  {
    if m > 0 {
      CalmSerialFixed(n + 1, m - 1);
    }
  }

  // ----- a file that is edited while a serial correction is under way

  const SerialOn := File(Unset, Enabled, Unset)
  const SerialOff := File(Unset, Disabled, Unset)

  /** Two readings that confirm a difference of five seconds, after which serial time is switched off. */
  function Confirming(): seq<Event> {
    [Calm(0, SerialTime.Valid(5), SerialOn, 0), Calm(1, SerialTime.Valid(5), SerialOff, 0)]
  }

  /** A confirmed difference waits for its hand-over, and serial time is off. */
  ghost predicate Waiting(w: World, n: nat) {
    InStep(w, n) && w.client.link.diff == 5 && !w.client.link.threadReads && w.reports == 0
  }

  lemma ConfirmingWaits(abs: AbsOverload, wall: int, mono: real)
    ensures var r := Run(Started(abs, SerialOn, wall, mono), Confirming());
      Waiting(r, 2) && r.client.clock.blockDetect == BLOCK_FOR_3
  {
    hide Advance;
    var w0 := Started(abs, SerialOn, wall, mono);
    var e0, e1 := Calm(0, SerialTime.Valid(5), SerialOn, 0), Calm(1, SerialTime.Valid(5), SerialOff, 0);
    CalmAdvance(w0, e0, 0);
    var w1 := Advance(w0, e0);
    CalmAdvance(w1, e1, 1);
    assert Confirming()[1..] == [e1] && [e1][1..] == [];
    assert Run(w0, Confirming()) == Run(w1, [e1]) == Run(Advance(w1, e1), []);
  }

  lemma {:induction false} WaitingRun(w: World, n: nat, m: nat)
    requires w.client.servo.Wf() && Waiting(w, n) && n + m < SECS_PER_MINUTE
    ensures var r := Run(w, CalmSeconds(n, m, SerialOff));
      && Waiting(r, n + m)
      && r.client.clock.blockDetect == (if w.client.clock.blockDetect > m then w.client.clock.blockDetect - m else 0)
    decreases m
  {
    hide Advance, InStep;
    if m > 0 {
      var e := Calm(n, SerialTime.NoMessage, SerialOff, 0);
      InStepNext(w, n, SerialOff);
      WaitingRun(Advance(w, e), n + 1, m - 1);
      assert CalmSeconds(n, m, SerialOff)[1..] == CalmSeconds(n + 1, m - 1, SerialOff);
    }
  }

  /** Serial time on again, and nothing read. */
  function On(n: nat): Event {
    Calm(n, SerialTime.NoMessage, SerialOn, 0)
  }

  lemma RunOne(w: World, e: Event)
    requires w.client.servo.Wf()
    ensures Run(w, [e]) == Advance(w, e)
  {
    hide Advance;
    assert [e][1..] == [];
    assert Run(w, [e]) == Run(Advance(w, e), []);
  }

  /** Three seconds after which the waiting difference has been applied unblocked. */
  lemma Resume(w: World, n: nat)
    requires w.client.servo.Wf() && Waiting(w, n) && w.client.clock.blockDetect == 0 && 8 <= n <= 10
    ensures var r := Run(w, [On(n), On(n + 1), On(n + 2)]);
      Applied5(r, n + 3) && r.reports == if n >= 9 then 1 else 0
  {
    hide Advance;
    var e0, e1, e2 := On(n), On(n + 1), On(n + 2);
    CalmAdvance(w, e0, n);
    var w1 := Advance(w, e0);
    CalmAdvance(w1, e1, n + 1);
    var w2 := Advance(w1, e1);
    CalmAdvance(w2, e2, n + 2);
    assert [e0, e1, e2][1..] == [e1, e2] && [e1, e2][1..] == [e2];
    RunOne(w2, e2);
  }

  /** The five seconds are in the clock but not in the counter, nothing blocks and no correction is pending. */
  ghost predicate Applied5(w: World, n: nat) {
    && w.ok && CalmServo(w.client.servo, n)
    && !w.client.link.threadReads && w.client.link.diff == 0 && w.client.link.rv != -1
    && var c := w.client.clock;
       && c.consensusTimeError == 0 && c.serialTimeError == 0 && c.blockDetect == 0
       && c.tCount + 5 == w.wall && c.monoLast == w.mono
  }

  lemma Applied5Reports(w: World, n: nat)
    requires w.client.servo.Wf() && Applied5(w, n) && 11 <= n < 20
    ensures Run(w, [On(n)]).reports == w.reports + 1
  {
    hide Advance;
    CalmAdvance(w, On(n), n);
    RunOne(w, On(n));
  }

  lemma {:induction false} RunAppend(w: World, x: seq<Event>, y: seq<Event>)
    requires w.client.servo.Wf()
    ensures Run(w, x + y) == Run(Run(w, x), y)
    decreases |x|
  {
    hide Advance;
    if x == [] {
      assert x + y == y;
    } else {
      assert (x + y)[0] == x[0] && (x + y)[1..] == x[1..] + y;
      RunAppend(Advance(w, x[0]), x[1..], y);
    }
  }

  /** Serial time switched off by the second pulse and on again after m calm seconds, and then three more seconds. */
  function Edited(m: nat): seq<Event> {
    Confirming() + CalmSeconds(2, m, SerialOff) + [On(m + 2), On(m + 3), On(m + 4)]
  }

  lemma EditedRun(abs: AbsOverload, wall: int, mono: real, m: nat)
    requires 6 <= m <= 8
    ensures var r := Run(Started(abs, SerialOn, wall, mono), Edited(m));
      Applied5(r, m + 5) && r.reports == if m == 6 then 0 else 1
    ensures NoExternalSets(Edited(m) + [On(m + 5)])
  {
    hide Advance, Run, Started, Confirming;
    var w, x, y := Started(abs, SerialOn, wall, mono), Confirming(), CalmSeconds(2, m, SerialOff);
    var z := [On(m + 2), On(m + 3), On(m + 4)];
    ConfirmingWaits(abs, wall, mono);
    WaitingRun(Run(w, x), 2, m);
    Resume(Run(Run(w, x), y), m + 2);
    RunAppend(w, x, y);
    RunAppend(w, x + y, z);
    NothingSet(m);
  }

  /** A run without external sets in which the client takes its own serial correction for one. */
  lemma EditedFileMisleads(abs: AbsOverload, wall: int, mono: real)
    ensures NoExternalSets(Edited(8)) && Run(Started(abs, SerialOn, wall, mono), Edited(8)).reports == 1
  {
    EditedRun(abs, wall, mono, 8);
    assert Edited(8) == (Edited(8) + [On(13)])[..|Edited(8)|];
  }

  /** In the next second it reports the same correction again. */
  lemma OneCorrectionIsReportedTwice(abs: AbsOverload, wall: int, mono: real)
    ensures var events := Edited(8) + [On(13)];
      NoExternalSets(events) && Run(Started(abs, SerialOn, wall, mono), events).reports == 2
  {
    hide Edited, Run, Started;
    var w := Started(abs, SerialOn, wall, mono);
    EditedRun(abs, wall, mono, 8);
    Applied5Reports(Run(w, Edited(8)), 13);
    RunAppend(w, Edited(8), [On(13)]);
  }

  /**
   * Switched on two seconds earlier the correction comes with the eleventh pulse, before detection is on, and is
   * reported by the twelfth.
   */
  lemma OldCorrectionIsReported(abs: AbsOverload, wall: int, mono: real)
    ensures var w := Started(abs, SerialOn, wall, mono);
      var r := Run(w, Edited(6));
      && NoExternalSets(Edited(6) + [On(11)])
      && r.reports == 0 && r.client.clock.serialTimeError == 0
      && Run(w, Edited(6) + [On(11)]).reports == 1
  {
    hide Edited, Run, Started;
    var w := Started(abs, SerialOn, wall, mono);
    EditedRun(abs, wall, mono, 6);
    Applied5Reports(Run(w, Edited(6)), 11);
    RunAppend(w, Edited(6), [On(11)]);
  }

  lemma {:induction false} CalmSetsNothing(n: nat, m: nat, file: File)
    ensures NoExternalSets(CalmSeconds(n, m, file))
    decreases m
  {
    if m > 0 {
      CalmSetsNothing(n + 1, m - 1, file);
    }
  }

  lemma NothingSet(m: nat)
    ensures NoExternalSets(Edited(m) + [On(m + 5)])
  {
    CalmSetsNothing(2, m, SerialOff);
  }
}
