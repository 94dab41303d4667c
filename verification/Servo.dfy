/**
 * The controller proper: what one PPS reading does to the controller part of `struct G`,
 * and the invariant that ties its state to the history since the last (re)start.
 */
module Servo {
  import opened Arith
  import opened Constants
  import opened Limiter
  import opened Noise
  import opened Integrator
  import opened Frequency
  import opened InterruptDelay

  /** A call of `adjtimex`: a time slew in microseconds or a scaled frequency offset. */
  datatype Adj = SingleShot(offset: int) | SetFrequency(scaled: int)

  datatype Servo = Servo(
    abs: AbsOverload,
    seqNum: nat, isControlling: bool, activeCount: nat, slewIsLow: bool,
    latency: Latency,
    nDelaySpikes: nat, isDelaySpike: bool, slew: Slew,
    hardLimit: int, invProportionalGain: int,
    rawError: int, zeroError: int, timeCorrection: int,
    integrator: Integrator,
    integralTimeCorrection: real, freqOffset: real,
    adjtimex: seq<Adj>)
  {
    ghost predicate Wf() {
      integrator.Wf() && hardLimit >= 1 && (invProportionalGain == INV_GAIN_0 || invProportionalGain == INV_GAIN_1)
    }
  }

  function EmptyIntegrator(): (g: Integrator)
    ensures g.Wf()
  {
    Integrator(seq(OFFSETFIFO_LEN, _ => 0), 0, 0, 0.0, 0, seq(NUM_INTEGRALS, _ => 0.0), 0.0, 0)
  }

  /** `initialize`. */
  function Cleared(abs: AbsOverload, adjtimex: seq<Adj>): (s: Servo)
    ensures s.Wf()
  {
    Servo(abs, 0, false, 0, false, InitialLatency,
          0, false, Slew(0.0, 0, 0.0), HARD_LIMIT_NONE, INV_GAIN_0,
          0, 0, 0, EmptyIntegrator(), 0.0, 0.0, adjtimex)
  }

  /** A cleared controller whose frequency offset of zero has been sent and whose noise level has been set. */
  function Reset(abs: AbsOverload, adjtimex: seq<Adj>): (s: Servo)
    ensures s.Wf()
  {
    Cleared(abs, adjtimex + [SetFrequency(0)]).(latency := Retrack(InitialLatency))
  }

  /** The controller at program start. */
  function Initial(abs: AbsOverload): (s: Servo)
    ensures s.Wf()
  {
    Reset(abs, [])
  }

  /** `removeNoise`. */
  function RemoveNoise(s: Servo, rawError: int): (t: Servo)
    requires s.Wf()
    ensures t.Wf()
  {
    var spikes := NextSpikes(rawError, s.hardLimit, s.latency.noiseLevel, s.nDelaySpikes);
    if Rejects(rawError, s.hardLimit, s.latency.noiseLevel, s.nDelaySpikes) then
      s.(nDelaySpikes := spikes, isDelaySpike := true, zeroError := 0)
    else
      var slew := NextSlew(s.slew, rawError);
      var limit := NextLimit(s.hardLimit, s.activeCount, s.abs, slew.avg, s.integrator.avgCorrection);
      s.(nDelaySpikes := spikes, isDelaySpike := false,
         slew := slew, hardLimit := limit, zeroError := Clamp(rawError, limit),
         invProportionalGain := if s.isControlling then INV_GAIN_1 else s.invProportionalGain)
  }

  /** `getAcquireState`, and its result stored in `isControlling`. */
  function Acquire(s: Servo): (t: Servo)
    requires s.Wf()
    ensures t.Wf()
  {
    var low := s.slewIsLow || (s.slew.cnt == 0 && AbsR(s.slew.avg) < SLEW_MAX);
    s.(slewIsLow := low, isControlling := low && s.seqNum >= SECS_PER_MINUTE)
  }

  /** The part of a controlling step that feeds the integrator; `integralIsReady` resets the noise level once a minute. */
  function Accumulate(s: Servo): (t: Servo)
    requires s.Wf()
    ensures t.Wf()
  {
    s.(integrator := Feed(s.integrator, s.timeCorrection, s.hardLimit),
       activeCount := s.activeCount + 1,
       latency := if s.integrator.idx == 0 then Retrack(s.latency) else s.latency)
  }

  /** The part that commands a new frequency offset. */
  function Command(s: Servo): (t: Servo)
    requires s.Wf()
    ensures t.Wf()
  {
    var integral := SelectIntegral(s.integrator, s.hardLimit);
    s.(integralTimeCorrection := integral,
       freqOffset := integral * INTEGRAL_GAIN,
       adjtimex := s.adjtimex + [SetFrequency(Scaled(integral))])
  }

  /** A controlling step: a frequency is commanded when the index was 0. */
  function Control(s: Servo): (t: Servo)
    requires s.Wf()
    ensures t.Wf()
  {
    if s.integrator.idx == 0 then Command(Accumulate(s)) else Accumulate(s)
  }

  /** The reading taken over. */
  function Begin(s: Servo, rawError: int): (t: Servo)
    requires s.Wf()
    ensures t.Wf()
  {
    s.(seqNum := s.seqNum + 1, rawError := rawError, adjtimex := [])
  }

  /** The proportional correction of an accepted error. */
  function SlewTime(s: Servo): (t: Servo)
    requires s.Wf()
    ensures t.Wf()
  {
    var c := TruncDiv(-s.zeroError, s.invProportionalGain);
    s.(timeCorrection := c, adjtimex := s.adjtimex + [SingleShot(c)])
  }

  /** What follows for an error that was not rejected. */
  function Accept(s: Servo): (t: Servo)
    requires s.Wf()
    ensures t.Wf()
  {
    var a := Acquire(SlewTime(s));
    if a.isControlling then Control(a) else a
  }

  /** `makeTimeCorrection` from the point where the raw error is known. */
  function Tick(s: Servo, rawError: int): (t: Servo)
    requires s.Wf()
    ensures t.Wf()
  {
    var n := RemoveNoise(Begin(s, rawError), rawError);
    if n.isDelaySpike then n else Accept(n)
  }

  /** The restart condition of `readPPS_SetTime`. */
  predicate NeedsRestart(s: Servo) {
    || (!s.isControlling && s.seqNum >= SECS_PER_MINUTE)
    || (s.isControlling && s.hardLimit > HARD_LIMIT_1024 && SlewMag(s.abs, s.slew.avg) > SLEW_MAX)
  }

  function Restarted(s: Servo): Servo {
    if NeedsRestart(s) then Reset(s.abs, s.adjtimex) else s
  }

  // ----- the history since the last (re)start

  /**
   * The raw errors accepted; for each controlling step its correction and its limit; the number
   * of rejected samples; and every frequency commanded by a controlling step.
   */
  datatype History = History(accepted: seq<int>, corrections: seq<int>, limits: seq<int>,
                             rejected: nat, frequencies: seq<int>)

  const Start := History([], [], [], 0, [])

  /** The frequencies among some `adjtimex` calls. */
  function Frequencies(calls: seq<Adj>): seq<int> {
    if calls == [] then []
    else (if calls[0].SetFrequency? then [calls[0].scaled] else []) + Frequencies(calls[1..])
  }

  /** The time slews among them. */
  function Offsets(calls: seq<Adj>): seq<int> {
    if calls == [] then []
    else (if calls[0].SingleShot? then [calls[0].offset] else []) + Offsets(calls[1..])
  }

  /** The history extended by the step that led to t. */
  function Observe(h: History, t: Servo): History {
    if t.isDelaySpike then h.(rejected := h.rejected + 1)
    else
      var k := h.(accepted := h.accepted + [t.rawError], frequencies := h.frequencies + Frequencies(t.adjtimex));
      if t.isControlling then
        k.(corrections := h.corrections + [t.timeCorrection], limits := h.limits + [t.hardLimit])
      else k
  }

  /** Every correction stayed within the limit in force at its step. */
  ghost predicate CorrectionsLimited(h: History) {
    && |h.corrections| == |h.limits|
    && forall k :: 0 <= k < |h.limits| ==> IsLimit(h.limits[k]) && Abs(h.corrections[k]) <= h.limits[k]
  }

  /** The counters of the acquisition state machine. */
  ghost predicate CountersTrack(s: Servo, h: History) {
    && s.activeCount == |h.corrections|
    && s.seqNum == |h.accepted| + h.rejected
    && (s.isControlling ==> s.slewIsLow && s.activeCount >= 1 && |h.accepted| == SECS_PER_MINUTE - 1 + s.activeCount)
    && (!s.isControlling ==> s.activeCount == 0)
    && (s.activeCount <= SECS_PER_MINUTE ==> s.hardLimit == HARD_LIMIT_NONE && h.rejected == 0)
    && (s.activeCount <= 1 ==> s.invProportionalGain == INV_GAIN_0)
    && (s.activeCount >= 2 ==> s.invProportionalGain == INV_GAIN_1)
  }

  ghost predicate Inv(s: Servo, h: History) {
    && s.Wf()
    && IsLimit(s.hardLimit)
    && s.latency.Valid()
    && s.nDelaySpikes <= MAX_SPIKES
    && SlewTracks(s.slew, h.accepted)
    && (s.slewIsLow <==> HasQuietWindow(h.accepted, |h.accepted|))
    && Tracks(s.integrator, h.corrections, h.limits)
    && CountersTrack(s, h)
    && CorrectionsLimited(h)
    && CommandsExact(h.corrections, h.limits, h.frequencies)
  }

  /** What `readPPS_SetTime` adds to the invariant by restarting a controller that failed to acquire. */
  ghost predicate Acquired(s: Servo) {
    s.isControlling <==> s.seqNum >= SECS_PER_MINUTE
  }

  lemma ResetInv(abs: AbsOverload, calls: seq<Adj>)
    ensures var s := Initial(abs).(adjtimex := calls); Inv(s, Start) && Acquired(s)
  {
    var s := Initial(abs);
    assert s.latency.Valid() by {
      assert Round(6.0) == 6;
    }
    assert !HasQuietWindow([], 0);
    assert Tracks(s.integrator, [], []);
  }

  /** A rejected second leaves limit, slew, integrator, gain, last correction and all counters but `seqNum` unchanged. */
  lemma RejectedIsInert(s: Servo, rawError: int)
    requires s.Wf() && Tick(s, rawError).isDelaySpike
    ensures var t := Tick(s, rawError);
      t == s.(seqNum := s.seqNum + 1, rawError := rawError, zeroError := 0, adjtimex := [],
              isDelaySpike := true, nDelaySpikes := s.nDelaySpikes + 1)
  {
  }

  lemma SlewLowNext(s: Servo, h: History, rawError: int)
    requires Inv(s, h)
    ensures var slew := NextSlew(s.slew, rawError);
      var accepted := h.accepted + [rawError];
      (s.slewIsLow || (slew.cnt == 0 && AbsR(slew.avg) < SLEW_MAX)) <==> HasQuietWindow(accepted, |accepted|)
  {
    SlewTracksNext(s.slew, h.accepted, rawError);
    QuietWindowNext(h.accepted, rawError);
  }

  lemma FrequenciesOf(calls: seq<Adj>)
    requires 1 <= |calls| <= 2 && calls[0].SingleShot? && (|calls| == 2 ==> calls[1].SetFrequency?)
    ensures Frequencies(calls) == if |calls| == 2 then [calls[1].scaled] else []
  {
    if |calls| == 2 {
      assert Frequencies(calls[1..]) == [calls[1].scaled] + Frequencies(calls[1..][1..]);
    }
  }

  lemma CountersNext(s: Servo, h: History, rawError: int)
    requires Inv(s, h) && Acquired(s)
    ensures var t := Tick(s, rawError);
      CountersTrack(t, Observe(h, t)) && (t.isControlling ==> t.seqNum >= SECS_PER_MINUTE)
  {
  }

  lemma CorrectionWithinLimit(rawError: int, limit: int, gain: int)
    requires limit >= 1 && (gain == INV_GAIN_0 || gain == INV_GAIN_1)
    ensures Abs(TruncDiv(-Clamp(rawError, limit), gain)) <= limit
  {
    TruncDivBounds(-Clamp(rawError, limit), gain);
    TruncDivBounds(Clamp(rawError, limit), gain);
  }

  /** The noise filter's own results are not touched by what follows. */
  lemma AcceptKeeps(s: Servo)
    requires s.Wf()
    ensures var t := Accept(s);
      && t.slew == s.slew && t.hardLimit == s.hardLimit && t.invProportionalGain == s.invProportionalGain
      && t.rawError == s.rawError && t.isDelaySpike == s.isDelaySpike
      && t.timeCorrection == TruncDiv(-s.zeroError, s.invProportionalGain)
  {
  }

  /** What an accepted error does to limit and correction. */
  lemma AcceptedStep(s: Servo, rawError: int)
    requires s.Wf() && !Tick(s, rawError).isDelaySpike
    ensures var t := Tick(s, rawError);
      && t.slew == NextSlew(s.slew, rawError)
      && t.hardLimit == NextLimit(s.hardLimit, s.activeCount, s.abs, t.slew.avg, s.integrator.avgCorrection)
      && t.invProportionalGain == (if s.isControlling then INV_GAIN_1 else s.invProportionalGain)
      && t.timeCorrection == TruncDiv(-Clamp(rawError, t.hardLimit), t.invProportionalGain)
      && t.rawError == rawError
  {
    AcceptKeeps(RemoveNoise(Begin(s, rawError), rawError));
  }

  lemma OffsetsOf(calls: seq<Adj>)
    requires 1 <= |calls| <= 3 && calls[0].SingleShot? && forall k :: 1 <= k < |calls| ==> calls[k].SetFrequency?
    ensures Offsets(calls) == [calls[0].offset]
  {
    NoOffsets(calls[1..]);
  }

  lemma {:induction false} NoOffsets(calls: seq<Adj>)
    requires forall k :: 0 <= k < |calls| ==> calls[k].SetFrequency?
    ensures Offsets(calls) == []
  {
    if calls != [] {
      NoOffsets(calls[1..]);
    }
  }

  /** The shape of the calls of a step: none if it rejects, else a time slew and perhaps a frequency. */
  lemma CallShape(s: Servo, rawError: int)
    requires s.Wf()
    ensures var t := Tick(s, rawError);
      if t.isDelaySpike then t.adjtimex == []
      else
        && 1 <= |t.adjtimex| <= 2 && t.adjtimex[0] == SingleShot(t.timeCorrection)
        && (|t.adjtimex| == 2 ==> t.adjtimex[1].SetFrequency?)
  {
  }

  /** A step that rejects keeps the histories of corrections and limits; one that accepts may extend both. */
  lemma LimitsObserved(h: History, t: Servo)
    requires CorrectionsLimited(h)
    requires !t.isDelaySpike ==> IsLimit(t.hardLimit) && Abs(t.timeCorrection) <= t.hardLimit
    ensures CorrectionsLimited(Observe(h, t))
  {
  }

  lemma LimitsNext(s: Servo, h: History, rawError: int)
    requires s.Wf() && IsLimit(s.hardLimit) && CorrectionsLimited(h)
    ensures var t := Tick(s, rawError); IsLimit(t.hardLimit) && CorrectionsLimited(Observe(h, t))
  {
    hide Tick;
    var t := Tick(s, rawError);
    if t.isDelaySpike {
      RejectedIsInert(s, rawError);
    } else {
      AcceptedStep(s, rawError);
      NextLimitIsLimit(s.hardLimit, s.activeCount, s.abs, t.slew.avg, s.integrator.avgCorrection);
      CorrectionWithinLimit(rawError, t.hardLimit, t.invProportionalGain);
    }
    LimitsObserved(h, t);
  }

  /** The calls of an accepted step, and what they add to the history. */
  lemma AcceptedCalls(s: Servo, rawError: int)
    requires s.Wf() && !Tick(s, rawError).isDelaySpike
    ensures var t := Tick(s, rawError);
      && t.integrator == (if t.isControlling then Feed(s.integrator, t.timeCorrection, t.hardLimit) else s.integrator)
      && Frequencies(t.adjtimex) ==
           (if t.isControlling && s.integrator.idx == 0 then [Scaled(SelectIntegral(t.integrator, t.hardLimit))] else [])
  {
    FrequenciesOf(Tick(s, rawError).adjtimex);
  }

  lemma HistoryNext(s: Servo, h: History, rawError: int)
    requires s.Wf() && Tracks(s.integrator, h.corrections, h.limits)
    requires CommandsExact(h.corrections, h.limits, h.frequencies)
    ensures var t := Tick(s, rawError); var k := Observe(h, t);
      Tracks(t.integrator, k.corrections, k.limits) && CommandsExact(k.corrections, k.limits, k.frequencies)
  {
    var t := Tick(s, rawError);
    if t.isDelaySpike {
      RejectedIsInert(s, rawError);
    } else {
      AcceptedCalls(s, rawError);
      FeedTracks(s.integrator, h.corrections, h.limits, t.timeCorrection, t.hardLimit);
      CommandsNext(s.integrator, h.corrections, h.limits, h.frequencies, t.timeCorrection, t.hardLimit);
    }
  }

  lemma SlewNext(s: Servo, h: History, rawError: int)
    requires Inv(s, h)
    ensures var t := Tick(s, rawError); var k := Observe(h, t);
      SlewTracks(t.slew, k.accepted) && (t.slewIsLow <==> HasQuietWindow(k.accepted, |k.accepted|))
  {
    if Tick(s, rawError).isDelaySpike {
      RejectedIsInert(s, rawError);
    } else {
      AcceptedStep(s, rawError);
      SlewTracksNext(s.slew, h.accepted, rawError);
      SlewLowNext(s, h, rawError);
    }
  }

  lemma LatencyNext(s: Servo, rawError: int)
    requires s.Wf() && s.latency.Valid() && s.nDelaySpikes <= MAX_SPIKES
    ensures var t := Tick(s, rawError); t.latency.Valid() && t.nDelaySpikes <= MAX_SPIKES
  {
  }

  /** Every step of the controller keeps the whole invariant. */
  lemma TickInv(s: Servo, h: History, rawError: int)
    requires Inv(s, h) && Acquired(s)
    ensures var t := Tick(s, rawError); Inv(t, Observe(h, t)) && (t.isControlling ==> t.seqNum >= SECS_PER_MINUTE)
  {
    CountersNext(s, h, rawError);
    LimitsNext(s, h, rawError);
    HistoryNext(s, h, rawError);
    SlewNext(s, h, rawError);
    LatencyNext(s, rawError);
  }
}
