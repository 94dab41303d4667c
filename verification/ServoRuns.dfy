/** Whole runs of the controller: lost pulses, rejected samples, calibrations and restarts included. */
module ServoRuns {
  import opened Wrappers
  import opened Arith
  import opened Constants
  import opened Limiter
  import opened Noise
  import opened Integrator
  import opened Frequency
  import opened InterruptDelay
  import opened Servo

  /**
   * One pass of the main loop as the controller sees it: the interrupt time read, if the PPS interrupt
   * was not lost, and the calibration delay measured, if calibration is enabled and gets its turn.
   */
  datatype Second = Second(interruptTime: Option<int>, delay: Option<int>)

  datatype Traced = Traced(s: Servo, h: History)

  /** The gate of `waitForPPS` before `getInterruptDelay`. */
  predicate Calibrates(s: Servo) {
    !s.isDelaySpike && s.hardLimit == HARD_LIMIT_1
  }

  function Calibrate(s: Servo, delay: Option<int>): Servo {
    if Calibrates(s) && delay.Some? then s.(latency := Measure(s.latency, delay.value, s.hardLimit)) else s
  }

  /** The pass whose reading makes u of the controller: a restart, or a calibration if it is its turn. */
  function PassWith(h: History, u: Servo, delay: Option<int>): Traced {
    if NeedsRestart(u) then Traced(Restarted(u), Start) else Traced(Calibrate(u, delay), Observe(h, u))
  }

  function Pass(t: Traced, e: Second): (r: Traced)
    requires t.s.Wf()
    ensures r.s.Wf()
  {
    if e.interruptTime.None? then t
    else PassWith(t.h, Tick(t.s, e.interruptTime.value - t.s.latency.sysDelay), e.delay)
  }

  function RunFrom(t: Traced, events: seq<Second>): (r: Traced)
    requires t.s.Wf()
    ensures r.s.Wf()
    decreases |events|
  {
    if events == [] then t else RunFrom(Pass(t, events[0]), events[1..])
  }

  lemma {:induction false} RunFromAppend(t: Traced, x: seq<Second>, y: seq<Second>)
    requires t.s.Wf()
    ensures RunFrom(t, x + y) == RunFrom(RunFrom(t, x), y)
    decreases |x|
  {
    if x == [] {
      assert x + y == y;
    } else {
      assert (x + y)[0] == x[0] && (x + y)[1..] == x[1..] + y;
      RunFromAppend(Pass(t, x[0]), x[1..], y);
    }
  }

  /** A run from program start. */
  function Run(abs: AbsOverload, events: seq<Second>): (r: Traced)
    ensures r.s.Wf()
  {
    RunFrom(Traced(Initial(abs), Start), events)
  }

  ghost predicate Good(t: Traced) {
    Inv(t.s, t.h) && Acquired(t.s)
  }

  lemma CalibrateIsGood(t: Traced, delay: Option<int>)
    requires Good(t)
    ensures Good(t.(s := Calibrate(t.s, delay)))
  {
    if delay.Some? {
      StepIsValid(t.s.latency, Measured(delay.value));
    }
  }

  lemma TickIsGood(t: Traced, rawError: int)
    requires Good(t)
    ensures var u := Tick(t.s, rawError); !NeedsRestart(u) ==> Good(Traced(u, Observe(t.h, u)))
  {
    TickInv(t.s, t.h, rawError);
  }

  lemma RestartIsGood(s: Servo)
    ensures NeedsRestart(s) ==> Good(Traced(Restarted(s), Start))
  {
    ResetInv(s.abs, s.adjtimex);
  }

  lemma PassWithIsGood(h: History, u: Servo, delay: Option<int>)
    requires !NeedsRestart(u) ==> Good(Traced(u, Observe(h, u)))
    ensures Good(PassWith(h, u, delay))
  {
    if NeedsRestart(u) {
      RestartIsGood(u);
    } else {
      CalibrateIsGood(Traced(u, Observe(h, u)), delay);
    }
  }

  lemma PassIsGood(t: Traced, e: Second)
    requires Good(t)
    ensures Good(Pass(t, e))
  {
    hide Tick;
    if e.interruptTime.Some? {
      var rawError := e.interruptTime.value - t.s.latency.sysDelay;
      TickIsGood(t, rawError);
      PassWithIsGood(t.h, Tick(t.s, rawError), e.delay);
    }
  }

  lemma {:induction false} RunFromIsGood(t: Traced, events: seq<Second>)
    requires Good(t)
    ensures Good(RunFrom(t, events))
    decreases |events|
  {
    if events != [] {
      PassIsGood(t, events[0]);
      RunFromIsGood(Pass(t, events[0]), events[1..]);
    }
  }

  /** The invariant holds after every run. */
  lemma RunIsGood(abs: AbsOverload, events: seq<Second>)
    ensures Good(Run(abs, events))
  {
    ResetInv(abs, []);
    RunFromIsGood(Traced(Initial(abs), Start), events);
  }

  // ----- what the invariant says about every run

  /** The last controlling step that integral i has absorbed is the latest one whose FIFO index was 50 + i. */
  lemma AbsorbedIsLatest(n: nat, i: nat, m: nat)
    requires i < NUM_INTEGRALS && 0 < m <= n && (m - 1) % SECS_PER_MINUTE == FIRST + i
    ensures m <= Absorbed(n, i)
    ensures (Absorbed(n, i) - 1) % SECS_PER_MINUTE == FIRST + i
  {
  }

  /**
   * After every run, sixty times integral i is the sum of all corrections from the start of control
   * through the latest controlling step whose FIFO index was 50 + i.
   */
  lemma IntegralTelescopes(abs: AbsOverload, events: seq<Second>, i: nat)
    requires i < NUM_INTEGRALS
    ensures var t := Run(abs, events);
      t.s.integrator.integral[i] * 60.0 == Sum(t.h.corrections[..Absorbed(|t.h.corrections|, i)]) as real
  {
    RunIsGood(abs, events);
    var t := Run(abs, events);
    var m := Absorbed(|t.h.corrections|, i);
    PrefixSlice(t.h.corrections, 0, m);
    assert t.h.corrections[0..m] == t.h.corrections[..m];
  }

  ghost predicate LimitsBounded(h: History, bound: nat) {
    forall k :: 0 <= k < |h.limits| && k >= |h.limits| - SECS_PER_MINUTE ==> h.limits[k] <= bound
  }

  lemma AccumWithin(h: History, bound: nat)
    requires CorrectionsLimited(h)
    requires LimitsBounded(h, bound)
    ensures var n := |h.corrections|;
      var m := Min(n, SECS_PER_MINUTE);
      Abs(Prefix(h.corrections, n) - Prefix(h.corrections, n - m)) <= m * bound <= SECS_PER_MINUTE * bound
  {
    var n := |h.corrections|;
    var m := Min(n, SECS_PER_MINUTE);
    PrefixBound(h.corrections, n, m, bound);
    MulMonotone(m, SECS_PER_MINUTE, bound);
  }

  lemma RollingSumExact(g: Integrator, h: History)
    requires Tracks(g, h.corrections, h.limits)
    ensures var n := |h.corrections|;
      g.accum == Sum(h.corrections[n - Min(n, SECS_PER_MINUTE)..])
  {
    var n := |h.corrections|;
    var m := Min(n, SECS_PER_MINUTE);
    PrefixSlice(h.corrections, n - m, n);
    assert h.corrections[n - m..n] == h.corrections[n - m..];
  }

  lemma AverageBounded(g: Integrator, h: History, bound: nat)
    requires Tracks(g, h.corrections, h.limits) && CorrectionsLimited(h) && LimitsBounded(h, bound)
    ensures AbsR(g.avgCorrection) <= bound as real && Abs(g.accum) <= SECS_PER_MINUTE * bound
  {
    AccumWithin(h, bound);
  }

  /** The accumulator is the sum of the last 60 corrections, the average is a sixtieth of it and within `bound`. */
  ghost predicate RollingSumWithin(t: Traced, bound: nat) {
    var n, g := |t.h.corrections|, t.s.integrator;
    && g.accum == Sum(t.h.corrections[n - Min(n, SECS_PER_MINUTE)..])
    && g.avgCorrection * 60.0 == g.accum as real
    && AbsR(g.avgCorrection) <= bound as real
    && Abs(g.accum) <= SECS_PER_MINUTE * HARD_LIMIT_NONE
  }

  lemma GoodRollingSum(t: Traced, bound: nat)
    requires Good(t) && LimitsBounded(t.h, bound)
    ensures RollingSumWithin(t, bound)
  {
    RollingSumExact(t.s.integrator, t.h);
    AverageBounded(t.s.integrator, t.h, bound);
    AverageBounded(t.s.integrator, t.h, HARD_LIMIT_NONE);
  }

  /** After every run, with any bound on the limits of the last 60 controlling steps. */
  lemma RollingSumRefinesHistory(abs: AbsOverload, events: seq<Second>, bound: nat)
    requires LimitsBounded(Run(abs, events).h, bound)
    ensures RollingSumWithin(Run(abs, events), bound)
  {
    RunIsGood(abs, events);
    GoodRollingSum(Run(abs, events), bound);
  }

  /**
   * Exactly one frequency is commanded per started minute of controlling steps. It is the mean of the ten
   * integrals if the limit was 1 at the update step and the ten before it, else the last integral, in units of 2^-16,
   * after the integral gain and to the nearest integer.
   */
  lemma FrequencyCommandsExact(abs: AbsOverload, events: seq<Second>, k: nat)
    ensures var h := Run(abs, events).h;
      && |h.corrections| == |h.limits|
      && |h.frequencies| == Minutes(|h.corrections|)
      && (k < |h.frequencies| ==>
            var n := k * SECS_PER_MINUTE;
            && n < |h.limits|
            && var x := Commanded(h.corrections, h.limits, n);
               && h.frequencies[k] == Scaled(x)
               && AbsR(h.frequencies[k] as real - 65536.0 * (0.63212 * x)) <= 0.5
               && (x >= 0.0 ==> h.frequencies[k] >= 0) && (x <= 0.0 ==> h.frequencies[k] <= 0))
  {
    RunIsGood(abs, events);
    var h := Run(abs, events).h;
    if k < |h.frequencies| {
      assert CommandExact(h.corrections, h.limits, h.frequencies[k], k);
      ScaledIsNearest(Commanded(h.corrections, h.limits, k * SECS_PER_MINUTE));
    }
  }

  /** A larger integral never commands a smaller frequency. */
  lemma FrequencyCommandsAreMonotone(abs: AbsOverload, events: seq<Second>, j: nat, k: nat)
    requires var h := Run(abs, events).h; j < |h.frequencies| && k < |h.frequencies|
    ensures var h := Run(abs, events).h;
      var m, n := j * SECS_PER_MINUTE, k * SECS_PER_MINUTE;
      && m < |h.limits| == |h.corrections| && n < |h.limits|
      && (Commanded(h.corrections, h.limits, m) <= Commanded(h.corrections, h.limits, n) ==>
            h.frequencies[j] <= h.frequencies[k])
  {
    RunIsGood(abs, events);
    var h := Run(abs, events).h;
    assert CommandExact(h.corrections, h.limits, h.frequencies[j], j);
    assert CommandExact(h.corrections, h.limits, h.frequencies[k], k);
    var x := Commanded(h.corrections, h.limits, j * SECS_PER_MINUTE);
    var y := Commanded(h.corrections, h.limits, k * SECS_PER_MINUTE);
    if x <= y {
      ScaledIsMonotone(x, y);
    }
  }

  /** The acquisition state machine after every run, and the limit's range. */
  lemma AcquisitionCounters(abs: AbsOverload, events: seq<Second>)
    ensures var Traced(s, h) := Run(abs, events);
      && (s.isControlling <==> s.seqNum >= SECS_PER_MINUTE)
      && (s.isControlling ==> s.seqNum == SECS_PER_MINUTE - 1 + s.activeCount + h.rejected)
      && (!s.isControlling ==> s.activeCount == 0 && h.rejected == 0 && s.seqNum == |h.accepted|)
      && s.activeCount == |h.corrections|
      && s.integrator.idx == s.activeCount % SECS_PER_MINUTE
      && s.integrator.fifoCount == Min(s.activeCount, SECS_PER_MINUTE)
      && IsLimit(s.hardLimit)
      && (s.isControlling ==> HasQuietWindow(h.accepted, |h.accepted|))
  {
    RunIsGood(abs, events);
  }

  /**
   * At the sixtieth pulse the controller takes control exactly if some window of ten errors had a mean
   * below 65 and the last one is not above 65; otherwise it restarts from scratch.
   */
  lemma ControlEntry(t: Traced, interruptTime: int, delay: Option<int>)
    requires Good(t) && t.s.seqNum == SECS_PER_MINUTE - 1
    ensures var accepted := t.h.accepted + [interruptTime - t.s.latency.sysDelay];
      var r := Pass(t, Second(Some(interruptTime), delay));
      && |accepted| == SECS_PER_MINUTE
      && (r.s.isControlling <==>
            && HasQuietWindow(accepted, |accepted|)
            && SlewMag(t.s.abs, WindowSum(accepted, |accepted|) as real / 10.0) <= SLEW_MAX)
      && (!r.s.isControlling ==> r.s.(adjtimex := []) == Initial(t.s.abs).(adjtimex := []) && r.h == Start)
  {
    var rawError := interruptTime - t.s.latency.sysDelay;
    SlewLowNext(t.s, t.h, rawError);
    SlewTracksNext(t.s.slew, t.h.accepted, rawError);
  }
}
