/** How the controller behaves over stretches of a run: spike bursts, and a clamp that binds. */
module ServoDynamics {
  import opened Wrappers
  import opened Arith
  import opened Constants
  import opened Limiter
  import opened Noise
  import opened Integrator
  import opened Servo
  import opened ServoRuns

  /** The raw error that a pass reads. */
  function RawError(t: Traced, e: Second): int
    requires e.interruptTime.Some?
  {
    e.interruptTime.value - t.s.latency.sysDelay
  }

  /** How many pulses were not lost. */
  function Pulses(events: seq<Second>): (n: nat)
    ensures n <= |events|
    decreases |events|
  {
    if events == [] then 0 else (if events[0].interruptTime.Some? then 1 else 0) + Pulses(events[1..])
  }

  lemma {:induction false} NoPulses(t: Traced, events: seq<Second>)
    requires t.s.Wf() && Pulses(events) == 0
    ensures RunFrom(t, events) == t
    decreases |events|
  {
    if events != [] {
      NoPulses(t, events[1..]);
    }
  }

  /** A pass that reads a pulse ends with a restart, or with what its reading made of the controller, perhaps calibrated. */
  lemma PassResult(t: Traced, e: Second)
    requires t.s.Wf() && e.interruptTime.Some?
    ensures var v := Tick(t.s, RawError(t, e));
      var r := Pass(t, e);
      if NeedsRestart(v) then r.s.hardLimit == HARD_LIMIT_NONE && !r.s.isDelaySpike && r.s.nDelaySpikes == 0
      else r == Traced(Calibrate(v, e.delay), Observe(t.h, v))
  {
    hide Tick;
  }

  /** A controller in control, as the invariant leaves it. */
  ghost predicate Engaged(s: Servo) {
    && s.Wf() && s.isControlling && s.slewIsLow && s.seqNum >= SECS_PER_MINUTE
    && s.latency.noiseLevel >= NOISE_LEVEL_MIN && s.nDelaySpikes <= MAX_SPIKES
  }

  lemma InControlIsEngaged(t: Traced)
    requires Good(t) && t.s.isControlling
    ensures Engaged(t.s)
  {
  }

  lemma TickStaysEngaged(s: Servo, rawError: int)
    requires Engaged(s)
    ensures Engaged(Tick(s, rawError))
  {
    TickSpikes(s, rawError);
  }

  /** What a step does to the count of suspensions in a row. */
  lemma TickSpikes(s: Servo, rawError: int)
    requires s.Wf()
    ensures Tick(s, rawError).nDelaySpikes == NextSpikes(rawError, s.hardLimit, s.latency.noiseLevel, s.nDelaySpikes)
    ensures Tick(s, rawError).isDelaySpike <==> Rejects(rawError, s.hardLimit, s.latency.noiseLevel, s.nDelaySpikes)
  {
  }

  /** What a pass sends to the kernel besides frequencies: nothing if it rejects, else its correction, once. */
  lemma PassOffsets(t: Traced, e: Second)
    requires t.s.Wf() && e.interruptTime.Some?
    ensures var v := Tick(t.s, RawError(t, e));
      Offsets(Pass(t, e).s.adjtimex) == if v.isDelaySpike then [] else [v.timeCorrection]
  {
    hide Tick;
    var v := Tick(t.s, RawError(t, e));
    CallShape(t.s, RawError(t, e));
    var calls := Pass(t, e).s.adjtimex;
    assert calls == v.adjtimex || calls == v.adjtimex + [SetFrequency(0)];
    if v.isDelaySpike {
      NoOffsets(calls);
    } else {
      OffsetsOf(calls);
    }
  }

  // ----- a latency that is the initial estimate

  /** Calibration is off, or measures what the estimate already is. */
  predicate Steady(delay: Option<int>) {
    delay.Some? ==> delay.value == INTERRUPT_LATENCY
  }

  ghost predicate AtLatency(s: Servo) {
    s.latency.sysDelay == INTERRUPT_LATENCY && s.latency.delayMedian == INTERRUPT_LATENCY as real
  }

  lemma TickAtLatency(s: Servo, rawError: int)
    requires s.Wf() && AtLatency(s)
    ensures AtLatency(Tick(s, rawError))
  {
  }

  lemma CalibrateAtLatency(s: Servo, delay: Option<int>)
    requires AtLatency(s) && s.latency.noiseLevel >= NOISE_LEVEL_MIN && Steady(delay)
    ensures AtLatency(Calibrate(s, delay))
  {
  }

  lemma PassAtLatency(t: Traced, e: Second)
    requires Good(t) && AtLatency(t.s) && Steady(e.delay)
    ensures AtLatency(Pass(t, e).s)
  {
    hide Tick;
    if e.interruptTime.Some? {
      var v := Tick(t.s, RawError(t, e));
      TickAtLatency(t.s, RawError(t, e));
      TickIsGood(t, RawError(t, e));
      PassResult(t, e);
      if NeedsRestart(v) {
        RestartAtLatency(v);
      } else {
        CalibrateAtLatency(v, e.delay);
      }
    }
  }

  lemma RestartAtLatency(s: Servo)
    requires NeedsRestart(s)
    ensures AtLatency(Restarted(s))
  {
  }

  // ----- small errors

  /** No error accepted so far is beyond what the acquisition threshold allows for a mean. */
  ghost predicate SmallErrors(h: History) {
    forall k :: 0 <= k < |h.accepted| ==> Abs(h.accepted[k]) <= 64
  }

  /** At the highest limit no sample is rejected. */
  lemma UnlimitedAccepts(s: Servo, rawError: int)
    requires s.Wf() && s.hardLimit == HARD_LIMIT_NONE
    ensures var v := Tick(s, rawError);
      && !v.isDelaySpike && v.seqNum == s.seqNum + 1
      && v.isControlling == (v.slewIsLow && v.seqNum >= SECS_PER_MINUTE)
  {
  }

  lemma SmallIsQuiet(h: History)
    requires SmallErrors(h) && |h.accepted| >= SLEW_LEN
    ensures HasQuietWindow(h.accepted, |h.accepted|)
  {
    PrefixBound(h.accepted, SLEW_LEN, SLEW_LEN, 64);
    assert QuietWindowEnds(h.accepted, |h.accepted|, SLEW_LEN);
  }

  lemma SmallIsSlow(s: Slew, h: History, abs: AbsOverload)
    requires SlewTracks(s, h.accepted) && SmallErrors(h)
    ensures SlewMag(abs, s.avg) <= SLEW_MAX
  {
    var start := WindowStart(|h.accepted|);
    if start > 0 {
      PrefixBound(h.accepted, start, SLEW_LEN, 64);
    }
  }

  /** As long as all errors are small the controller takes control at the sixtieth second and never restarts. */
  lemma SmallTick(t: Traced, rawError: int)
    requires Good(t) && SmallErrors(t.h) && Abs(rawError) <= 64 && !Tick(t.s, rawError).isDelaySpike
    ensures var v := Tick(t.s, rawError);
      var w := Traced(v, Observe(t.h, v));
      && Good(w) && SmallErrors(w.h) && !NeedsRestart(v)
      && v.seqNum == t.s.seqNum + 1 && w.h.accepted == t.h.accepted + [rawError]
  {
    hide Tick;
    var v := Tick(t.s, rawError);
    var h := Observe(t.h, v);
    TickInv(t.s, t.h, rawError);
    AcceptedStep(t.s, rawError);
    SmallIsSlow(v.slew, h, t.s.abs);
    if t.s.isControlling {
      InControlIsEngaged(t);
      TickStaysEngaged(t.s, rawError);
    } else {
      UnlimitedAccepts(t.s, rawError);
      if |h.accepted| >= SLEW_LEN {
        SmallIsQuiet(h);
      }
    }
    TickAbs(t.s, rawError);
  }

  lemma TickAbs(s: Servo, rawError: int)
    requires s.Wf()
    ensures Tick(s, rawError).abs == s.abs && Tick(s, rawError).seqNum == s.seqNum + 1
  {
  }

  // ----- spike bursts

  ghost predicate SuspectIn(s: Servo, rawError: int) {
    Suspect(rawError, s.hardLimit, s.latency.noiseLevel)
  }

  /** Every pulse that is read looks like a spike at its time. */
  ghost predicate IsBurst(t: Traced, events: seq<Second>)
    requires t.s.Wf()
    decreases |events|
  {
    events == [] ||
    (&& (events[0].interruptTime.Some? ==> SuspectIn(t.s, RawError(t, events[0])))
     && IsBurst(Pass(t, events[0]), events[1..]))
  }

  /** Nothing looks like a spike while there is no limit. */
  lemma {:induction false} UnlimitedBurst(t: Traced, events: seq<Second>)
    requires t.s.Wf() && t.s.hardLimit == HARD_LIMIT_NONE && IsBurst(t, events)
    ensures Pulses(events) == 0
    decreases |events|
  {
    if events != [] {
      UnlimitedBurst(t, events[1..]);
    }
  }

  /** A burst counts up to thirty suspensions; only a restart, which lifts the limit, ends the count. */
  lemma {:induction false} BurstCount(t: Traced, events: seq<Second>)
    requires t.s.Wf() && t.s.nDelaySpikes <= MAX_SPIKES && IsBurst(t, events)
    ensures var u := RunFrom(t, events).s;
      u.hardLimit == HARD_LIMIT_NONE || u.nDelaySpikes == Min(t.s.nDelaySpikes + Pulses(events), MAX_SPIKES)
    decreases |events|
  {
    hide Tick;
    if events != [] {
      var r := Pass(t, events[0]);
      if events[0].interruptTime.Some? {
        PassResult(t, events[0]);
        TickSpikes(t.s, RawError(t, events[0]));
      }
      if r.s.hardLimit == HARD_LIMIT_NONE {
        UnlimitedBurst(r, events[1..]);
        NoPulses(r, events[1..]);
      } else {
        BurstCount(r, events[1..]);
      }
    }
  }

  /** A rejected second never restarts the controller. */
  lemma RejectedStays(t: Traced, e: Second)
    requires Good(t) && e.interruptTime.Some? && Tick(t.s, RawError(t, e)).isDelaySpike
    ensures !NeedsRestart(Tick(t.s, RawError(t, e))) && Pass(t, e).s.isDelaySpike
  {
    hide Tick;
    TickSpikes(t.s, RawError(t, e));
    RejectedIsInert(t.s, RawError(t, e));
    PassResult(t, e);
  }

  /**
   * In a burst within any run, pulses lost and calibrations made anywhere, a sample is rejected exactly if fewer than
   * thirty suspensions in a row preceded it.
   */
  lemma BurstProfile(t: Traced, events: seq<Second>, e: Second)
    requires Good(t) && IsBurst(t, events)
    requires e.interruptTime.Some? && SuspectIn(RunFrom(t, events).s, RawError(RunFrom(t, events), e))
    ensures Pass(RunFrom(t, events), e).s.isDelaySpike <==> t.s.nDelaySpikes + Pulses(events) < MAX_SPIKES
  {
    hide Tick;
    var u := RunFrom(t, events);
    RunFromIsGood(t, events);
    BurstCount(t, events);
    TickSpikes(u.s, RawError(u, e));
    PassResult(u, e);
    if Tick(u.s, RawError(u, e)).isDelaySpike {
      RejectedStays(u, e);
    }
  }

  /** The same for every run from program start and every burst that follows it. */
  lemma RunBurstProfile(abs: AbsOverload, before: seq<Second>, events: seq<Second>, e: Second)
    requires IsBurst(Run(abs, before), events) && e.interruptTime.Some?
    requires var u := RunFrom(Run(abs, before), events); SuspectIn(u.s, RawError(u, e))
    ensures var t := Run(abs, before);
      Pass(RunFrom(t, events), e).s.isDelaySpike <==> t.s.nDelaySpikes + Pulses(events) < MAX_SPIKES
  {
    RunIsGood(abs, before);
    BurstProfile(Run(abs, before), events, e);
  }

  /** Every pulse that is read is rejected. */
  ghost predicate AllRejected(t: Traced, events: seq<Second>)
    requires t.s.Wf()
    decreases |events|
  {
    events == [] ||
    (&& (events[0].interruptTime.Some? ==> Tick(t.s, RawError(t, events[0])).isDelaySpike)
     && AllRejected(Pass(t, events[0]), events[1..]))
  }

  /** Rejections in a row use up the thirty that are allowed, and nothing but an accepted sample gives them back. */
  lemma {:induction false} RejectionsAreBounded(t: Traced, events: seq<Second>)
    requires Good(t) && AllRejected(t, events)
    ensures RunFrom(t, events).s.nDelaySpikes == t.s.nDelaySpikes + Pulses(events) <= MAX_SPIKES
    decreases |events|
  {
    hide Tick;
    if events != [] {
      PassIsGood(t, events[0]);
      if events[0].interruptTime.Some? {
        RejectedStays(t, events[0]);
        TickSpikes(t.s, RawError(t, events[0]));
        PassResult(t, events[0]);
      }
      RejectionsAreBounded(Pass(t, events[0]), events[1..]);
    }
  }

  /** No run from program start rejects more than thirty pulses in a row. */
  lemma RunRejectsAtMostThirty(abs: AbsOverload, before: seq<Second>, events: seq<Second>)
    requires AllRejected(Run(abs, before), events)
    ensures Pulses(events) <= MAX_SPIKES
  {
    RunIsGood(abs, before);
    RejectionsAreBounded(Run(abs, before), events);
  }

  // ----- a clamp that binds for a minute

  lemma AcceptedCorrection(s: Servo, rawError: int)
    requires Engaged(s) && !Tick(s, rawError).isDelaySpike
    ensures var t := Tick(s, rawError); t.hardLimit >= 1 && t.timeCorrection == -Clamp(rawError, t.hardLimit)
  {
    var t := Tick(s, rawError);
    TruncDivBounds(-t.zeroError, INV_GAIN_1);
  }

  /** How far x is on the given side of zero. */
  function Toward(up: bool, x: int): int {
    if up then x else -x
  }

  function TowardR(up: bool, x: real): real {
    if up then x else -x
  }

  /** A pass that reads a pulse leaves the limit at `limit`, and an error it accepts is on side `up` and at least as large. */
  ghost predicate PinnedPass(t: Traced, e: Second, limit: int, up: bool)
    requires t.s.Wf()
  {
    e.interruptTime.Some? ==> PinnedStep(Pass(t, e).s, RawError(t, e), limit, up)
  }

  ghost predicate Pinned(t: Traced, events: seq<Second>, limit: int, up: bool)
    requires t.s.Wf()
    decreases |events|
  {
    events == [] || (PinnedPass(t, events[0], limit, up) && Pinned(Pass(t, events[0]), events[1..], limit, up))
  }

  ghost predicate PinnedStep(s: Servo, rawError: int, limit: int, up: bool) {
    s.hardLimit == limit && (!s.isDelaySpike ==> Toward(up, rawError) >= limit)
  }

  ghost function AcceptedIn(t: Traced, u: Traced): int {
    |u.h.accepted| - |t.h.accepted|
  }

  /** The slew window and average that k samples on one side, each at least `limit`, force. */
  ghost predicate SlewForced(slew: Slew, k: int, limit: int, up: bool) {
    && (k >= slew.cnt ==> TowardR(up, slew.accum) >= (slew.cnt * limit) as real)
    && (k >= slew.cnt + SLEW_LEN ==> TowardR(up, slew.avg) >= limit as real)
  }

  lemma OneMore(n: int, limit: int)
    ensures ((n + 1) * limit) as real == (n * limit) as real + limit as real
  {
  }

  lemma SlewForcedNext(slew: Slew, k: nat, limit: int, up: bool, rawError: int)
    requires slew.cnt < SLEW_LEN
    requires SlewForced(slew, k, limit, up) && Toward(up, rawError) >= limit
    ensures SlewForced(NextSlew(slew, rawError), k + 1, limit, up)
  {
    if slew.cnt < SLEW_LEN - 1 {
      OneMore(slew.cnt, limit);
    }
  }

  /** The last k corrections are all c. */
  ghost predicate EndsWith(corrections: seq<int>, k: int, c: int) {
    k <= |corrections| && forall j :: 0 <= j < |corrections| && j >= |corrections| - k ==> corrections[j] == c
  }

  /** After k pinned samples: the corrections and slews that they force, and what the slew says about the limit. */
  ghost predicate PinnedState(t: Traced, u: Traced, limit: int, up: bool) {
    var k := AcceptedIn(t, u);
    && Good(u) && u.s.isControlling && k >= 0
    && EndsWith(u.h.corrections, k, -Toward(up, limit))
    && SlewForced(u.s.slew, k, limit, up)
    && (k > 0 ==> u.s.hardLimit == limit)
    && (k >= u.s.slew.cnt + SLEW_LEN ==> limit <= 64)
  }

  lemma TickIsGoodInControl(u: Traced, rawError: int)
    requires Good(u) && u.s.isControlling
    ensures var v := Tick(u.s, rawError); Good(Traced(v, Observe(u.h, v))) && v.isControlling
  {
    InControlIsEngaged(u);
    TickStaysEngaged(u.s, rawError);
    TickInv(u.s, u.h, rawError);
  }

  lemma EndsWithNext(corrections: seq<int>, k: int, c: int)
    requires EndsWith(corrections, k, c)
    ensures EndsWith(corrections + [c], k + 1, c)
  {
  }

  lemma FloorAtLeast(x: real, k: int)
    requires x >= k as real
    ensures x.Floor >= k
  {
  }

  /** A limit that the high-slew branch leaves alone although the slew has reached it is at most 64. */
  lemma SlewBoundsLimit(limit: int, activeCount: nat, abs: AbsOverload, avgSlew: real, avgCorrection: real)
    requires IsLimit(limit) && limit < HARD_LIMIT_NONE && AbsR(avgSlew) >= limit as real
    requires NextLimit(limit, activeCount, abs, avgSlew, avgCorrection) == limit
    ensures limit <= 64
  {
    FloorAtLeast(AbsR(avgSlew), limit);
    assert SlewMag(abs, avgSlew) >= limit as real;
    FloorAtLeast(SlewMag(abs, avgSlew) * 4.0, 4 * limit);
  }

  /** A step that accepts keeps a pinned state pinned. */
  lemma PinnedAccepted(t: Traced, u: Traced, v: Traced, limit: int, up: bool, rawError: int)
    requires PinnedState(t, u, limit, up) && 1 <= limit < HARD_LIMIT_NONE
    requires Good(v) && v.s.isControlling && v.s.hardLimit == limit
    requires v.h.accepted == u.h.accepted + [rawError]
    requires v.h.corrections == u.h.corrections + [-Toward(up, limit)]
    requires v.s.slew == NextSlew(u.s.slew, rawError) && Toward(up, rawError) >= limit
    requires v.s.hardLimit ==
      NextLimit(u.s.hardLimit, u.s.activeCount, u.s.abs, v.s.slew.avg, u.s.integrator.avgCorrection)
    ensures PinnedState(t, v, limit, up)
  {
    var k := AcceptedIn(t, u);
    SlewForcedNext(u.s.slew, k, limit, up, rawError);
    EndsWithNext(u.h.corrections, k, -Toward(up, limit));
    if k + 1 >= v.s.slew.cnt + SLEW_LEN {
      SlewBoundsLimit(limit, u.s.activeCount, u.s.abs, v.s.slew.avg, u.s.integrator.avgCorrection);
    }
  }

  /** And so does one that rejects. */
  lemma PinnedRejected(t: Traced, u: Traced, v: Traced, limit: int, up: bool)
    requires PinnedState(t, u, limit, up)
    requires Good(v) && v.s.isControlling && v.s.hardLimit == u.s.hardLimit
    requires v.h.accepted == u.h.accepted && v.h.corrections == u.h.corrections && v.s.slew == u.s.slew
    ensures PinnedState(t, v, limit, up)
  {
  }

  lemma PinnedNext(t: Traced, u: Traced, limit: int, up: bool, rawError: int)
    requires PinnedState(t, u, limit, up) && 1 <= limit < HARD_LIMIT_NONE
    requires PinnedStep(Tick(u.s, rawError), rawError, limit, up)
    ensures var v := Tick(u.s, rawError); PinnedState(t, Traced(v, Observe(u.h, v)), limit, up)
  {
    hide Tick, SlewForced, EndsWith;
    var v := Tick(u.s, rawError);
    var w := Traced(v, Observe(u.h, v));
    TickIsGoodInControl(u, rawError);
    if v.isDelaySpike {
      RejectedIsInert(u.s, rawError);
      PinnedRejected(t, u, w, limit, up);
    } else {
      InControlIsEngaged(u);
      AcceptedCorrection(u.s, rawError);
      AcceptedStep(u.s, rawError);
      AcceptedObserved(u, rawError);
      PinnedCorrection(rawError, limit, up);
      PinnedAccepted(t, u, w, limit, up, rawError);
    }
  }

  lemma PinnedCorrection(rawError: int, limit: int, up: bool)
    requires limit >= 1 && Toward(up, rawError) >= limit
    ensures -Clamp(rawError, limit) == -Toward(up, limit)
  {
  }

  /** What an accepted step in control adds to the history. */
  lemma AcceptedObserved(u: Traced, rawError: int)
    requires Good(u) && u.s.isControlling && !Tick(u.s, rawError).isDelaySpike
    ensures var v := Tick(u.s, rawError);
      && Observe(u.h, v).accepted == u.h.accepted + [rawError]
      && Observe(u.h, v).corrections == u.h.corrections + [v.timeCorrection]
  {
    InControlIsEngaged(u);
    TickStaysEngaged(u.s, rawError);
    AcceptedStep(u.s, rawError);
  }

  /** A calibration changes nothing that being pinned is about. */
  lemma PinnedCalibrate(t: Traced, u: Traced, limit: int, up: bool, delay: Option<int>)
    requires PinnedState(t, u, limit, up)
    ensures PinnedState(t, u.(s := Calibrate(u.s, delay)), limit, up)
  {
    hide SlewForced, EndsWith;
    CalibrateIsGood(u, delay);
  }

  lemma PinnedPassNext(t: Traced, u: Traced, limit: int, up: bool, e: Second)
    requires PinnedState(t, u, limit, up) && 1 <= limit < HARD_LIMIT_NONE && PinnedPass(u, e, limit, up)
    ensures PinnedState(t, Pass(u, e), limit, up)
  {
    hide Tick, PinnedState;
    if e.interruptTime.Some? {
      PinnedIsWf(t, u, limit, up);
      PassResult(u, e);
      var v := Tick(u.s, RawError(u, e));
      PinnedNext(t, u, limit, up, RawError(u, e));
      PinnedCalibrate(t, Traced(v, Observe(u.h, v)), limit, up, e.delay);
    }
  }

  lemma PinnedIsWf(t: Traced, u: Traced, limit: int, up: bool)
    requires PinnedState(t, u, limit, up)
    ensures Good(u)
  {
  }

  lemma {:induction false} PinnedProgress(t: Traced, u: Traced, events: seq<Second>, limit: int, up: bool)
    requires PinnedState(t, u, limit, up) && 1 <= limit < HARD_LIMIT_NONE && Pinned(u, events, limit, up)
    ensures PinnedState(t, RunFrom(u, events), limit, up)
    decreases |events|
  {
    if events != [] {
      PinnedPassNext(t, u, limit, up, events[0]);
      PinnedProgress(t, Pass(u, events[0]), events[1..], limit, up);
    }
  }

  lemma PinnedStart(t: Traced, limit: int, up: bool)
    requires Good(t) && t.s.isControlling
    ensures PinnedState(t, t, limit, up)
  {
  }

  /** Before control there is no limit, so no pulse can be read while a limit is pinned. */
  lemma {:induction false} PinnedOnlyInControl(t: Traced, events: seq<Second>, limit: int, up: bool)
    requires Good(t) && !t.s.isControlling && limit < HARD_LIMIT_NONE && Pinned(t, events, limit, up)
    ensures Pulses(events) == 0
    decreases |events|
  {
    if events != [] {
      if events[0].interruptTime.Some? {
        PassResult(t, events[0]);
        LimitsNextUncontrolled(t.s, RawError(t, events[0]));
      }
      PinnedOnlyInControl(t, events[1..], limit, up);
    }
  }

  lemma LimitsNextUncontrolled(s: Servo, rawError: int)
    requires s.Wf() && s.activeCount == 0 && s.hardLimit == HARD_LIMIT_NONE
    ensures Tick(s, rawError).hardLimit == HARD_LIMIT_NONE
  {
  }

  /** A minute of accepted corrections all equal to c makes the rolling average c. */
  lemma MinuteAverage(g: Integrator, corrections: seq<int>, c: int)
    requires g.Wf() && RollingTracks(g, corrections) && EndsWith(corrections, SECS_PER_MINUTE, c)
    ensures g.avgCorrection == c as real
  {
    var n := |corrections|;
    PrefixConstant(corrections, n - SECS_PER_MINUTE, n, c);
  }

  /** With an average at the limit, any limit of at most 64 rises, at high slew and at low slew. */
  lemma NextLimitRises(limit: int, activeCount: nat, abs: AbsOverload, avgSlew: real, avgCorrection: real)
    requires IsLimit(limit) && limit <= 64 && activeCount >= SECS_PER_MINUTE
    requires AbsR(avgCorrection) == limit as real
    ensures NextLimit(limit, activeCount, abs, avgSlew, avgCorrection) > limit
  {
    if SlewMag(abs, avgSlew) > SLEW_MAX {
      FloorAtLeast(SlewMag(abs, avgSlew) * 4.0, 257);
    }
  }

  /** What a pinned minute leaves behind. */
  lemma PinnedMinute(t: Traced, u: Traced, limit: int, up: bool)
    requires PinnedState(t, u, limit, up) && AcceptedIn(t, u) == SECS_PER_MINUTE && limit >= 1
    ensures u.s.Wf() && u.s.hardLimit == limit && IsLimit(limit) && limit <= 64
    ensures u.s.activeCount >= SECS_PER_MINUTE && AbsR(u.s.integrator.avgCorrection) == limit as real
  {
    MinuteAverage(u.s.integrator, u.h.corrections, -Toward(up, limit));
  }

  /** After a pinned minute the next accepted sample raises the limit. */
  lemma MinuteRaises(t: Traced, u: Traced, limit: int, up: bool, e: Second)
    requires PinnedState(t, u, limit, up) && AcceptedIn(t, u) == SECS_PER_MINUTE
    requires 1 <= limit < HARD_LIMIT_NONE && e.interruptTime.Some?
    ensures var v := Tick(u.s, RawError(u, e)); v.isDelaySpike || v.hardLimit > limit
    ensures var r := Pass(u, e).s; r.isDelaySpike || r.hardLimit > limit
  {
    hide Tick;
    PinnedMinute(t, u, limit, up);
    PassResult(u, e);
    var rawError := RawError(u, e);
    if !Tick(u.s, rawError).isDelaySpike {
      AcceptedStep(u.s, rawError);
      NextLimitRises(limit, u.s.activeCount, u.s.abs, NextSlew(u.s.slew, rawError).avg, u.s.integrator.avgCorrection);
    }
  }

  /**
   * After 60 accepted errors on one side that an unchanged limit below the cap clips, with any pulses lost and any
   * calibrations made in between, the next accepted sample raises the limit, whatever that sample and the slew are.
   */
  lemma ClampCannotStayPinned(t: Traced, events: seq<Second>, limit: int, up: bool, e: Second)
    requires Good(t) && 1 <= limit < HARD_LIMIT_NONE
    requires Pinned(t, events, limit, up) && AcceptedIn(t, RunFrom(t, events)) == SECS_PER_MINUTE
    requires e.interruptTime.Some?
    ensures var r := Pass(RunFrom(t, events), e).s; r.isDelaySpike || r.hardLimit > limit
  {
    hide Tick;
    if t.s.isControlling {
      PinnedStart(t, limit, up);
      PinnedProgress(t, t, events, limit, up);
      MinuteRaises(t, RunFrom(t, events), limit, up, e);
    } else {
      PinnedOnlyInControl(t, events, limit, up);
      NoPulses(t, events);
    }
  }

  lemma {:induction false} PinnedStaysBounded(t: Traced, u: Traced, events: seq<Second>, limit: int, up: bool)
    requires PinnedState(t, u, limit, up) && 1 <= limit < HARD_LIMIT_NONE && Pinned(u, events, limit, up)
    requires AcceptedIn(t, u) <= SECS_PER_MINUTE
    ensures AcceptedIn(t, RunFrom(u, events)) <= SECS_PER_MINUTE
    decreases |events|
  {
    hide Tick;
    if events != [] {
      PinnedPassNext(t, u, limit, up, events[0]);
      if events[0].interruptTime.Some? {
        PassResult(u, events[0]);
        if AcceptedIn(t, u) == SECS_PER_MINUTE {
          MinuteRaises(t, u, limit, up, events[0]);
        }
      }
      PinnedStaysBounded(t, Pass(u, events[0]), events[1..], limit, up);
    }
  }

  /** So no limit below the cap clips more than 60 samples on one side while it stays the same, and none above 64 more than 18. */
  lemma PinnedIsBounded(t: Traced, events: seq<Second>, limit: int, up: bool)
    requires Good(t) && 1 <= limit < HARD_LIMIT_NONE && Pinned(t, events, limit, up)
    ensures var k := AcceptedIn(t, RunFrom(t, events)); k <= SECS_PER_MINUTE && (limit > 64 ==> k <= 18)
  {
    if t.s.isControlling {
      PinnedStart(t, limit, up);
      PinnedProgress(t, t, events, limit, up);
      PinnedStaysBounded(t, t, events, limit, up);
    } else {
      PinnedOnlyInControl(t, events, limit, up);
      NoPulses(t, events);
    }
  }

  /** Both for every run from program start and every stretch that follows it. */
  lemma RunIsNeverPinnedForLong(abs: AbsOverload, before: seq<Second>, events: seq<Second>, limit: int, up: bool, e: Second)
    requires 1 <= limit < HARD_LIMIT_NONE && Pinned(Run(abs, before), events, limit, up) && e.interruptTime.Some?
    ensures var t := Run(abs, before);
      var u := RunFrom(t, events);
      var r := Pass(u, e).s;
      && AcceptedIn(t, u) <= SECS_PER_MINUTE
      && (limit > 64 ==> AcceptedIn(t, u) <= 18)
      && (AcceptedIn(t, u) == SECS_PER_MINUTE ==> r.isDelaySpike || r.hardLimit > limit)
  {
    RunIsGood(abs, before);
    PinnedIsBounded(Run(abs, before), events, limit, up);
    if AcceptedIn(Run(abs, before), RunFrom(Run(abs, before), events)) == SECS_PER_MINUTE {
      ClampCannotStayPinned(Run(abs, before), events, limit, up, e);
    }
  }
}
