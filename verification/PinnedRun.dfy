/** A run from program start in which a limit stays pinned for a whole minute, so that the bound of `ServoDynamics` is attained. */
module PinnedRun {
  import opened Wrappers
  import opened Arith
  import opened Constants
  import opened Limiter
  import opened Noise
  import opened Integrator
  import opened Servo
  import opened ServoRuns
  import opened ServoDynamics

  function Constant(n: nat, x: int): (s: seq<int>)
    ensures |s| == n && forall k :: 0 <= k < n ==> s[k] == x
  {
    seq(n, _ => x)
  }

  /** A second with the given raw error, as long as the latency estimate is the initial one. */
  function WithError(x: int, delay: Option<int>): Second {
    Second(Some(x + INTERRUPT_LATENCY), delay)
  }

  function Seconds(n: nat, x: int, delay: Option<int>): (s: seq<Second>)
    ensures |s| == n
  {
    seq(n, _ => WithError(x, delay))
  }

  lemma SecondsFront(n: nat, x: int, delay: Option<int>)
    requires n > 0
    ensures var s := Seconds(n, x, delay); s[0] == WithError(x, delay) && s[1..] == Seconds(n - 1, x, delay)
  {
  }

  /** A pass that does not restart keeps all but the latency of what its reading makes of the controller. */
  lemma SteadyPass(t: Traced, x: int, delay: Option<int>)
    requires t.s.Wf() && AtLatency(t.s) && Steady(delay)
    requires var v := Tick(t.s, x); !NeedsRestart(v) && Good(Traced(v, Observe(t.h, v)))
    ensures var v := Tick(t.s, x);
      var r := Pass(t, WithError(x, delay));
      r == Traced(v.(latency := r.s.latency), Observe(t.h, v)) && AtLatency(r.s) && Good(r)
  {
    hide Tick;
    var v := Tick(t.s, x);
    TickAtLatency(t.s, x);
    PassResult(t, WithError(x, delay));
    CalibrateIsGood(Traced(v, Observe(t.h, v)), delay);
    CalibrateAtLatency(v, delay);
  }

  /** Two minutes without any error, up to the last second of the second one. */
  const QUIET := 118

  /** The error that ends them. */
  const KICK := -29

  function Before(delay: Option<int>): seq<Second> {
    Seconds(QUIET, 0, delay) + [WithError(KICK, delay)]
  }

  // ----- without errors

  ghost predicate Quiet(t: Traced, n: nat) {
    && Good(t) && AtLatency(t.s) && t.h.rejected == 0
    && t.h.accepted == Constant(n, 0)
    && t.h.corrections == Constant(|t.h.corrections|, 0)
  }

  lemma QuietNext(t: Traced, n: nat)
    requires Quiet(t, n) && n < QUIET
    ensures var v := Tick(t.s, 0);
      Quiet(Traced(v, Observe(t.h, v)), n + 1) && !NeedsRestart(v)
  {
    hide Tick;
    UnlimitedAccepts(t.s, 0);
    SmallTick(t, 0);
    TickAtLatency(t.s, 0);
    AcceptedStep(t.s, 0);
    TruncDivBounds(0, Tick(t.s, 0).invProportionalGain);
    assert Constant(n, 0) + [0] == Constant(n + 1, 0);
  }

  lemma QuietPass(t: Traced, n: nat, delay: Option<int>)
    requires Quiet(t, n) && n < QUIET && Steady(delay)
    ensures Quiet(Pass(t, WithError(0, delay)), n + 1)
  {
    hide Tick;
    QuietNext(t, n);
    SteadyPass(t, 0, delay);
  }

  lemma {:induction false} QuietRun(t: Traced, n: nat, m: nat, delay: Option<int>)
    requires t.s.Wf() && Quiet(t, n) && n + m <= QUIET && Steady(delay)
    ensures Quiet(RunFrom(t, Seconds(m, 0, delay)), n + m)
    decreases m
  {
    hide Pass, Quiet, Seconds;
    if m > 0 {
      SecondsFront(m, 0, delay);
      QuietPass(t, n, delay);
      QuietRun(Pass(t, WithError(0, delay)), n + 1, m - 1, delay);
    }
  }

  lemma QuietStart(abs: AbsOverload)
    ensures Quiet(Traced(Initial(abs), Start), 0)
  {
    ResetInv(abs, []);
  }

  // ----- a minute of errors of one microsecond

  /** The corrections of the second minute, and those of the first j seconds of the third. */
  function Corrections(j: nat): seq<int> {
    Constant(59, 0) + [-KICK] + Constant(j, -1)
  }

  ghost predicate Held(t: Traced, j: nat) {
    && Good(t) && AtLatency(t.s) && t.s.isControlling
    && t.h.corrections == Corrections(j)
    && SmallErrors(t.h)
    && (j > 0 ==> t.s.hardLimit == HARD_LIMIT_1)
  }

  lemma KickIsHeld(t: Traced, delay: Option<int>)
    requires Quiet(t, QUIET) && Steady(delay)
    ensures var r := Pass(t, WithError(KICK, delay)); Held(r, 0) && r.s.seqNum == QUIET + 1
  {
    hide Tick;
    InControlIsEngaged(t);
    UnlimitedAccepts(t.s, KICK);
    SmallTick(t, KICK);
    AcceptedCorrection(t.s, KICK);
    AcceptedStep(t.s, KICK);
    AcceptedObserved(t, KICK);
    assert Constant(59, 0) + [-KICK] == Corrections(0);
    SteadyPass(t, KICK, delay);
  }

  lemma {:induction false} CorrectionsPrefix(j: nat, m: nat)
    requires m <= 60 + j
    ensures Prefix(Corrections(j), m) == if m < 60 then 0 else -KICK - (m - 60)
  {
    if m > 0 {
      CorrectionsPrefix(j, m - 1);
    }
  }

  /** The rolling average goes down from just below a half to minus a half. */
  lemma HeldAverage(t: Traced, j: nat)
    requires Held(t, j) && j < SECS_PER_MINUTE
    ensures t.s.integrator.avgCorrection * 60.0 == (-KICK - j) as real
    ensures t.s.activeCount == SECS_PER_MINUTE + j
  {
    CorrectionsPrefix(j, 60 + j);
    CorrectionsPrefix(j, j);
  }

  lemma HeldLimit(limit: int, activeCount: nat, abs: AbsOverload, avgSlew: real, avgCorrection: real, j: nat)
    requires limit >= 1 && j < SECS_PER_MINUTE <= activeCount && SlewMag(abs, avgSlew) <= SLEW_MAX
    requires avgCorrection * 60.0 == (-KICK - j) as real && (j == 0 || limit == HARD_LIMIT_1)
    ensures NextLimit(limit, activeCount, abs, avgSlew, avgCorrection) == HARD_LIMIT_1
  {
  }

  /** The error of 1 is accepted and clipped to 1. */
  lemma HeldTick(t: Traced, j: nat)
    requires Held(t, j) && j < SECS_PER_MINUTE
    ensures var v := Tick(t.s, 1);
      && !v.isDelaySpike && v.hardLimit == HARD_LIMIT_1 && v.timeCorrection == -1
      && v.isControlling && Good(Traced(v, Observe(t.h, v))) && SmallErrors(Observe(t.h, v)) && !NeedsRestart(v)
  {
    hide Tick;
    InControlIsEngaged(t);
    TickSpikes(t.s, 1);
    SmallTick(t, 1);
    TickStaysEngaged(t.s, 1);
    AcceptedStep(t.s, 1);
    AcceptedCorrection(t.s, 1);
    var v := Tick(t.s, 1);
    SmallIsSlow(v.slew, Observe(t.h, v), t.s.abs);
    HeldAverage(t, j);
    HeldLimit(t.s.hardLimit, t.s.activeCount, t.s.abs, v.slew.avg, t.s.integrator.avgCorrection, j);
  }

  lemma HeldNext(t: Traced, j: nat)
    requires Held(t, j) && j < SECS_PER_MINUTE
    ensures var v := Tick(t.s, 1);
      && !v.isDelaySpike && v.hardLimit == HARD_LIMIT_1 && !NeedsRestart(v)
      && Held(Traced(v, Observe(t.h, v)), j + 1)
      && |Observe(t.h, v).accepted| == |t.h.accepted| + 1
  {
    hide Tick;
    HeldTick(t, j);
    AcceptedObserved(t, 1);
    TickAtLatency(t.s, 1);
    assert Corrections(j) + [-1] == Corrections(j + 1);
  }

  lemma HeldPass(t: Traced, j: nat, delay: Option<int>)
    requires Held(t, j) && j < SECS_PER_MINUTE && Steady(delay)
    ensures var r := Pass(t, WithError(1, delay));
      && Held(r, j + 1)
      && |r.h.accepted| == |t.h.accepted| + 1
      && PinnedPass(t, WithError(1, delay), HARD_LIMIT_1, true)
  {
    hide Tick;
    HeldNext(t, j);
    SteadyPass(t, 1, delay);
  }

  lemma {:induction false} HeldRun(t: Traced, j: nat, m: nat, delay: Option<int>)
    requires t.s.Wf() && Held(t, j) && j + m <= SECS_PER_MINUTE && Steady(delay)
    ensures Pinned(t, Seconds(m, 1, delay), HARD_LIMIT_1, true)
    ensures AcceptedIn(t, RunFrom(t, Seconds(m, 1, delay))) == m
    decreases m
  {
    hide Pass, Held, PinnedPass, Seconds;
    if m > 0 {
      SecondsFront(m, 1, delay);
      HeldPass(t, j, delay);
      HeldRun(Pass(t, WithError(1, delay)), j + 1, m - 1, delay);
    }
  }

  lemma RunFromOne(t: Traced, e: Second)
    requires t.s.Wf()
    ensures RunFrom(t, [e]) == Pass(t, e)
  {
    assert RunFrom(t, [e]) == RunFrom(Pass(t, e), []);
  }

  lemma ThenKick(t: Traced, quiet: seq<Second>, delay: Option<int>)
    requires t.s.Wf() && Quiet(RunFrom(t, quiet), QUIET) && Steady(delay)
    ensures var u := RunFrom(t, quiet + [WithError(KICK, delay)]); Held(u, 0) && u.s.seqNum == QUIET + 1
  {
    hide Pass, RunFrom, Quiet, Held;
    RunFromAppend(t, quiet, [WithError(KICK, delay)]);
    KickIsHeld(RunFrom(t, quiet), delay);
    RunFromOne(RunFrom(t, quiet), WithError(KICK, delay));
  }

  lemma BeforeIsHeld(abs: AbsOverload, delay: Option<int>)
    requires Steady(delay)
    ensures Held(Run(abs, Before(delay)), 0) && Run(abs, Before(delay)).s.seqNum == |Before(delay)|
  {
    hide Pass, RunFrom, Quiet, Held, Initial, Seconds;
    var t := Traced(Initial(abs), Start);
    QuietStart(abs);
    QuietRun(t, 0, QUIET, delay);
    ThenKick(t, Seconds(QUIET, 0, delay), delay);
  }

  /**
   * In the run from program start that reads 118 pulses without error and one with an error of -29, and which none of
   * them restarts, sixty further errors of 1 all meet an unchanged limit of 1, with calibration and without.
   */
  lemma MinuteIsAttained(abs: AbsOverload, delay: Option<int>)
    requires Steady(delay)
    ensures var t := Run(abs, Before(delay));
      && t.s.isControlling && t.s.seqNum == |Before(delay)|
      && Pinned(t, Seconds(SECS_PER_MINUTE, 1, delay), HARD_LIMIT_1, true)
      && AcceptedIn(t, RunFrom(t, Seconds(SECS_PER_MINUTE, 1, delay))) == SECS_PER_MINUTE
  {
    hide Run, Before, Seconds;
    BeforeIsHeld(abs, delay);
    HeldRun(Run(abs, Before(delay)), 0, SECS_PER_MINUTE, delay);
  }
}
