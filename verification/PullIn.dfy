/** How fast an error is pulled in that only the time corrections move. */
module PullIn {
  import opened Wrappers
  import opened Arith
  import opened Constants
  import opened Limiter
  import opened Noise
  import opened Integrator
  import opened Servo
  import opened ServoRuns
  import opened ServoDynamics

  /**
   * A controller, the error that its next reading will find, measured against the controller's reference `sysDelay` of
   * that second, and what a calibration measures in each second, if anything.
   */
  datatype Plant = Plant(t: Traced, error: int, delay: nat -> Option<int>, at: nat)

  function Reading(p: Plant): Second {
    Second(Some(p.error + p.t.s.latency.sysDelay), p.delay(p.at))
  }

  /** What the kernel is told to slew the clock by. */
  function Slewed(calls: seq<Adj>): int {
    Sum(Offsets(calls))
  }

  /** One second: a pass of the controller, and the error moved by the time slews that it sends to the kernel. */
  function Correct(p: Plant): (r: Plant)
    requires p.t.s.Wf()
    ensures r.t.s.Wf()
  {
    var r := Pass(p.t, Reading(p));
    p.(t := r, error := p.error + Slewed(r.s.adjtimex), at := p.at + 1)
  }

  function Evolve(p: Plant, n: nat): (r: Plant)
    requires p.t.s.Wf()
    ensures r.t.s.Wf()
    decreases n
  {
    if n == 0 then p else Evolve(Correct(p), n - 1)
  }

  /** On the same side of zero as e, and no farther out. */
  predicate Inward(e: int, f: int) {
    if e >= 0 then 0 <= f <= e else e <= f <= 0
  }

  /** A rejected second sends no slew, an accepted one its correction, restart or not. */
  lemma CorrectMoves(p: Plant)
    requires p.t.s.Wf()
    ensures var v := Tick(p.t.s, p.error);
      Correct(p).error == if v.isDelaySpike then p.error else p.error + v.timeCorrection
  {
    hide Tick;
    PassOffsets(p.t, Reading(p));
    assert RawError(p.t, Reading(p)) == p.error;
    var v := Tick(p.t.s, p.error);
    var offsets := Offsets(Pass(p.t, Reading(p)).s.adjtimex);
    if v.isDelaySpike {
      assert Sum(offsets) == 0;
    } else {
      assert [v.timeCorrection][..0] == [];
      assert Sum(offsets) == Sum([]) + v.timeCorrection;
    }
  }

  /** With either gain and any limit a second takes the error toward zero and not beyond. */
  lemma CorrectIsInward(p: Plant)
    requires p.t.s.Wf()
    ensures Inward(p.error, Correct(p).error)
  {
    hide Tick, Correct;
    CorrectMoves(p);
    var v := Tick(p.t.s, p.error);
    if !v.isDelaySpike {
      AcceptedStep(p.t.s, p.error);
      TruncDivBounds(Clamp(p.error, v.hardLimit), v.invProportionalGain);
      TruncDivBounds(-Clamp(p.error, v.hardLimit), v.invProportionalGain);
    }
  }

  /** From any state, through acquisition and restarts, the error never changes sign and never grows. */
  lemma {:induction false} NeverOvershoots(p: Plant, n: nat)
    requires p.t.s.Wf()
    ensures Inward(p.error, Evolve(p, n).error)
    decreases n
  {
    if n > 0 {
      CorrectIsInward(p);
      NeverOvershoots(Correct(p), n - 1);
    }
  }

  lemma CorrectIsGood(p: Plant)
    requires Good(p.t)
    ensures Good(Correct(p).t)
  {
    hide Tick;
    PassIsGood(p.t, Reading(p));
  }

  // ----- one second, case by case

  /** A rejected second uses up one of at most thirty rejections in a row. */
  lemma RejectedSecond(p: Plant)
    requires Good(p.t) && Tick(p.t.s, p.error).isDelaySpike
    ensures var q := Correct(p);
      && q.error == p.error && q.error >= NOISE_LEVEL_MIN && !Restarts(p)
      && q.t.s.nDelaySpikes == p.t.s.nDelaySpikes + 1 <= MAX_SPIKES
      && q.t.s.isControlling == p.t.s.isControlling
  {
    hide Tick;
    assert RawError(p.t, Reading(p)) == p.error;
    CorrectMoves(p);
    RejectedStays(p.t, Reading(p));
    RejectedIsInert(p.t.s, p.error);
    TickSpikes(p.t.s, p.error);
    PassResult(p.t, Reading(p));
  }

  /** An accepted second in control takes off at least one microsecond; before control at least one of four. */
  lemma AcceptedSecond(p: Plant)
    requires Good(p.t) && !Tick(p.t.s, p.error).isDelaySpike
    ensures var q := Correct(p);
      && (p.t.s.isControlling && p.error != 0 ==> Abs(q.error) < Abs(p.error))
      && (Abs(p.error) >= 4 ==> Abs(q.error) < Abs(p.error))
      && (!p.t.s.isControlling && Abs(p.error) < 4 ==> q.error == p.error)
  {
    hide Tick, Correct;
    CorrectMoves(p);
    var s, v := p.t.s, Tick(p.t.s, p.error);
    AcceptedStep(s, p.error);
    var c := Clamp(p.error, v.hardLimit);
    TruncDivBounds(c, v.invProportionalGain);
    TruncDivBounds(-c, v.invProportionalGain);
    if !s.isControlling {
      LimitsNextUncontrolled(s, p.error);
      QuarterOf(p.error, c);
    }
  }

  /** What the startup gain makes of an error that the highest limit may clip. */
  lemma QuarterOf(error: int, c: int)
    requires c == Clamp(error, HARD_LIMIT_NONE)
    ensures Abs(error) >= 4 ==> Abs(TruncDiv(-c, INV_GAIN_0)) >= 1
    ensures Abs(error) < 4 ==> TruncDiv(-c, INV_GAIN_0) == 0
  {
  }

  /** Whether the next second restarts the controller. */
  predicate Restarts(p: Plant)
    requires p.t.s.Wf()
  {
    NeedsRestart(Tick(p.t.s, p.error))
  }

  // ----- in control

  predicate RestartsWithin(p: Plant, n: nat)
    requires p.t.s.Wf()
    decreases n
  {
    n > 0 && (Restarts(p) || RestartsWithin(Correct(p), n - 1))
  }

  lemma StaysInControl(p: Plant)
    requires Good(p.t) && p.t.s.isControlling && !Restarts(p)
    ensures Correct(p).t.s.isControlling
  {
    hide Tick;
    InControlIsEngaged(p.t);
    TickStaysEngaged(p.t.s, p.error);
    PassResult(p.t, Reading(p));
  }

  /** Either the error shrinks or a rejection is used up. */
  lemma CorrectProgress(p: Plant)
    requires Good(p.t) && p.error != 0 && (p.t.s.isControlling || Abs(p.error) >= 4)
    ensures var q := Correct(p);
      31 * Abs(q.error) - q.t.s.nDelaySpikes < 31 * Abs(p.error) - p.t.s.nDelaySpikes
  {
    hide Tick;
    if Tick(p.t.s, p.error).isDelaySpike {
      RejectedSecond(p);
    } else {
      AcceptedSecond(p);
    }
  }

  /** In control and without a restart the error is zero after 31 seconds per microsecond at the latest, whatever the limit does. */
  lemma {:induction false} InControl(p: Plant, n: nat)
    requires Good(p.t) && p.t.s.isControlling && !RestartsWithin(p, n)
    requires n + p.t.s.nDelaySpikes >= 31 * Abs(p.error)
    ensures Evolve(p, n).error == 0
    decreases n
  {
    hide Correct;
    if p.error == 0 {
      NeverOvershoots(p, n);
    } else if n > 0 {
      CorrectProgress(p);
      CorrectIsGood(p);
      StaysInControl(p);
      InControl(Correct(p), n - 1);
    }
  }

  // ----- from anywhere

  function ToControl(s: Servo): int {
    if s.isControlling then 0 else SECS_PER_MINUTE - s.seqNum
  }

  /** A bound on the seconds that it takes to pull the error in. */
  ghost function Rank(p: Plant): int {
    if p.error == 0 then 0
    else if Abs(p.error) >= 4 then 127 + 31 * Abs(p.error) - p.t.s.nDelaySpikes
    else if SmallErrors(p.t.h) then ToControl(p.t.s) + Abs(p.error)
    else 64 + ToControl(p.t.s) + Abs(p.error)
  }

  lemma RankBounds(p: Plant)
    requires Good(p.t)
    ensures 0 <= Rank(p) <= 127 + 31 * Abs(p.error)
    ensures Abs(p.error) < 4 ==> Rank(p) <= 127
    ensures p.error != 0 ==> Rank(p) > 0
    ensures !p.t.s.isControlling ==> p.t.s.seqNum < SECS_PER_MINUTE
  {
  }

  /** An error below the noise level is never rejected, and a second with one ends in a restart or counts toward control. */
  lemma SmallSecond(p: Plant)
    requires Good(p.t) && Abs(p.error) < 4
    ensures !Tick(p.t.s, p.error).isDelaySpike
    ensures var q := Correct(p);
      && (Restarts(p) ==> q.t.h == Start && q.t.s.seqNum == 0 && !q.t.s.isControlling)
      && (!Restarts(p) ==>
            && q.t.s.seqNum == p.t.s.seqNum + 1
            && q.t.h.accepted == p.t.h.accepted + [p.error]
            && (p.t.s.isControlling ==> q.t.s.isControlling))
      && (SmallErrors(p.t.h) ==> !Restarts(p))
  {
    hide Tick;
    TickSpikes(p.t.s, p.error);
    TickAbs(p.t.s, p.error);
    AcceptedStep(p.t.s, p.error);
    assert RawError(p.t, Reading(p)) == p.error;
    PassResult(p.t, Reading(p));
    if SmallErrors(p.t.h) {
      SmallTick(p.t, p.error);
    }
    if p.t.s.isControlling && !Restarts(p) {
      StaysInControl(p);
    }
  }

  lemma RankDecreases(p: Plant)
    requires Good(p.t) && p.error != 0
    ensures Rank(Correct(p)) < Rank(p)
  {
    hide Correct, Tick;
    var q := Correct(p);
    CorrectIsGood(p);
    CorrectIsInward(p);
    RankBounds(p);
    RankBounds(q);
    if Abs(p.error) >= 4 {
      CorrectProgress(p);
      SpikesBounded(p.t);
    } else {
      SmallSecond(p);
      AcceptedSecond(p);
    }
  }

  lemma SpikesBounded(t: Traced)
    requires Good(t)
    ensures t.s.nDelaySpikes <= MAX_SPIKES
  {
  }

  lemma {:induction false} RankSuffices(p: Plant, n: nat)
    requires Good(p.t) && n >= Rank(p)
    ensures Evolve(p, n).error == 0
    decreases n
  {
    hide Correct, Rank;
    RankBounds(p);
    if p.error == 0 {
      NeverOvershoots(p, n);
    } else {
      CorrectIsGood(p);
      RankDecreases(p);
      RankSuffices(Correct(p), n - 1);
    }
  }

  /**
   * From every state that a run reaches, through rejections, calibrations, acquisition and restarts, the error is zero
   * after 31 seconds per microsecond and two more minutes at the latest, and it has never changed sign or grown.
   */
  lemma FromAnywhere(abs: AbsOverload, before: seq<Second>, error: int, delay: nat -> Option<int>, at: nat, n: nat)
    ensures var p := Plant(Run(abs, before), error, delay, at);
      && Inward(error, Evolve(p, n).error)
      && (n >= 31 * Abs(error) + 127 ==> Evolve(p, n).error == 0)
  {
    var p := Plant(Run(abs, before), error, delay, at);
    RunIsGood(abs, before);
    NeverOvershoots(p, n);
    RankBounds(p);
    if n >= 31 * Abs(error) + 127 {
      RankSuffices(p, n);
    }
  }

  // ----- a latency that the controller knows

  /** Every calibration measures the initial latency. */
  ghost predicate KnownLatency(p: Plant) {
    AtLatency(p.t.s) && forall k :: Steady(p.delay(k))
  }

  lemma CorrectAtLatency(p: Plant)
    requires Good(p.t) && KnownLatency(p)
    ensures KnownLatency(Correct(p))
  {
    hide Tick;
    assert RawError(p.t, Reading(p)) == p.error;
    PassAtLatency(p.t, Reading(p));
  }

  lemma {:induction false} ReferenceKept(p: Plant, n: nat)
    requires Good(p.t) && KnownLatency(p)
    ensures Evolve(p, n).t.s.latency.sysDelay == INTERRUPT_LATENCY
    decreases n
  {
    hide Correct;
    if n > 0 {
      CorrectAtLatency(p);
      CorrectIsGood(p);
      ReferenceKept(Correct(p), n - 1);
    }
  }

  /**
   * Then the reference never moves, so that the error is that of the clock itself, and the interrupt time read is at last
   * exactly the latency, from every state of a run that has kept to it.
   */
  lemma ReferenceStays(p: Plant, n: nat)
    requires Good(p.t) && KnownLatency(p)
    ensures var q := Evolve(p, n);
      && q.t.s.latency.sysDelay == INTERRUPT_LATENCY
      && Reading(q).interruptTime == Some(q.error + INTERRUPT_LATENCY)
      && (n >= 31 * Abs(p.error) + 127 ==> Reading(q).interruptTime == Some(INTERRUPT_LATENCY))
  {
    hide Correct;
    RankBounds(p);
    if n >= 31 * Abs(p.error) + 127 {
      RankSuffices(p, n);
    }
    ReferenceKept(p, n);
  }
}
