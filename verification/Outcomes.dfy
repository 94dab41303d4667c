/** What one pass of any run decides, sends and keeps, in the numbers of client/pps-client.h. */
module Outcomes {
  import opened Wrappers
  import opened Arith
  import opened Constants
  import opened Limiter
  import opened Noise
  import opened Integrator
  import opened Servo
  import opened ServoRuns
  import opened ServoDynamics
  import D = InterruptDelay

  // ----- spikes

  /**
   * A pulse is rejected exactly if the limit is at most 4, its error reaches the noise level, and fewer than thirty were
   * rejected in a row; any pulse that does not look like a spike gives all thirty back.
   */
  lemma RejectedIff(t: Traced, e: Second)
    requires Good(t) && e.interruptTime.Some?
    ensures var s := t.s;
      var spike := s.hardLimit <= 4 && e.interruptTime.value - s.latency.sysDelay >= s.latency.noiseLevel;
      var r := Pass(t, e).s;
      && (r.isDelaySpike <==> spike && s.nDelaySpikes < 30)
      && (r.seqNum > 0 ==> r.nDelaySpikes == if !spike then 0 else if s.nDelaySpikes < 30 then s.nDelaySpikes + 1 else 30)
  {
    hide Tick;
    var rawError := RawError(t, e);
    PassResult(t, e);
    TickSpikes(t.s, rawError);
    TickAbs(t.s, rawError);
    if Tick(t.s, rawError).isDelaySpike {
      RejectedStays(t, e);
    }
  }

  // ----- time slews

  /** The limit that the step of a pass chooses. */
  function ChosenLimit(t: Traced, e: Second): int
    requires t.s.Wf() && e.interruptTime.Some?
  {
    Tick(t.s, RawError(t, e)).hardLimit
  }

  /**
   * A rejected pulse sends no time slew. An accepted one sends exactly one, restart or not: its error with reversed sign,
   * clipped to the limit that the step chooses and, until the second controlling step, a quarter of that.
   */
  lemma SlewsSent(t: Traced, e: Second)
    requires Good(t) && e.interruptTime.Some?
    ensures var calls, rawError := Pass(t, e).s.adjtimex, RawError(t, e);
      Offsets(calls) ==
        if Pass(t, e).s.isDelaySpike then []
        else [TruncDiv(-Clamp(rawError, ChosenLimit(t, e)), if t.s.isControlling then 1 else 4)]
  {
    hide Tick;
    PassOffsets(t, e);
    PassResult(t, e);
    if Tick(t.s, RawError(t, e)).isDelaySpike {
      RejectedStays(t, e);
    } else {
      AcceptedStep(t.s, RawError(t, e));
    }
  }

  /** So the slew is against the error, at most the error and the limit, and in control at least one of them. */
  lemma SlewsOpposeErrors(t: Traced, e: Second)
    requires Good(t) && e.interruptTime.Some? && !Pass(t, e).s.isDelaySpike
    ensures var calls, rawError, limit := Pass(t, e).s.adjtimex, RawError(t, e), ChosenLimit(t, e);
      && |Offsets(calls)| == 1
      && var c := Offsets(calls)[0];
         && (rawError >= 0 ==> -rawError <= c <= 0) && (rawError <= 0 ==> 0 <= c <= -rawError)
         && -limit <= c <= limit
         && (t.s.isControlling ==> c == -rawError || c == limit || c == -limit)
  {
    hide Tick;
    SlewsSent(t, e);
    var limit := ChosenLimit(t, e);
    LimitsNext(t.s, t.h, RawError(t, e));
    var c := Clamp(RawError(t, e), limit);
    ClampIsNearest(RawError(t, e), limit, 0);
    TruncDivBounds(c, if t.s.isControlling then 1 else 4);
    TruncDivBounds(-c, if t.s.isControlling then 1 else 4);
  }

  // ----- restarts

  /** The sum of the last complete window of ten accepted errors. */
  ghost function LastWindow(accepted: seq<int>): int
    requires |accepted| >= 10
  {
    WindowSum(accepted, |accepted| - |accepted| % 10)
  }

  ghost predicate IsRestart(t: Traced, r: Traced) {
    && r.h == Start
    && r.s.(adjtimex := []) == Initial(t.s.abs).(adjtimex := [])
    && r.s.adjtimex != [] && r.s.adjtimex[|r.s.adjtimex| - 1] == SetFrequency(0)
  }

  lemma RestartedIsRestart(t: Traced, v: Servo)
    requires v.abs == t.s.abs && NeedsRestart(v)
    ensures IsRestart(t, Traced(Restarted(v), Start))
  {
  }

  /** The slew that the restart test sees after a step is the mean of the last complete window. */
  lemma WindowIsSeen(s: Slew, accepted: seq<int>, abs: AbsOverload)
    requires SlewTracks(s, accepted) && |accepted| >= 10
    ensures SlewMag(abs, s.avg) == Shown(abs, LastWindow(accepted) as real / 10.0)
  {
  }

  /**
   * A pulse restarts a controller in control, with a frequency of zero sent and nothing else kept, exactly if the limit
   * that its step chooses is above 1024 and the last complete window shows a mean above 65; else control goes on.
   */
  ghost predicate RestartRule(t: Traced, e: Second)
    requires t.s.Wf() && e.interruptTime.Some?
  {
    var v, r := Tick(t.s, RawError(t, e)), Pass(t, e);
    var accepted := Observe(t.h, v).accepted;
    && |accepted| >= 60
    && if v.hardLimit > 1024 && Shown(t.s.abs, LastWindow(accepted) as real / 10.0) > 65.0 then IsRestart(t, r)
       else r.s.isControlling && r.s.seqNum == t.s.seqNum + 1 && r.h == Observe(t.h, v)
  }

  lemma InControlIsLong(t: Traced)
    requires Good(t) && t.s.isControlling
    ensures SlewTracks(t.s.slew, t.h.accepted) && |t.h.accepted| >= 60
  {
  }

  lemma GoesOn(t: Traced, e: Second)
    requires t.s.Wf() && e.interruptTime.Some? && !NeedsRestart(Tick(t.s, RawError(t, e)))
    ensures var v, r := Tick(t.s, RawError(t, e)), Pass(t, e);
      r.s.isControlling == v.isControlling && r.s.seqNum == v.seqNum && r.h == Observe(t.h, v)
  {
    hide Tick;
  }

  lemma ControlRestartsIff(t: Traced, e: Second)
    requires Good(t) && t.s.isControlling && e.interruptTime.Some?
    ensures RestartRule(t, e)
  {
    hide Tick, Observe, SlewTracks, Tracks, CountersTrack;
    var rawError := RawError(t, e);
    var v := Tick(t.s, rawError);
    TickAbs(t.s, rawError);
    TickIsGoodInControl(t, rawError);
    InControlIsLong(Traced(v, Observe(t.h, v)));
    WindowIsSeen(v.slew, Observe(t.h, v).accepted, t.s.abs);
    if NeedsRestart(v) {
      RestartedIsRestart(t, v);
    } else {
      GoesOn(t, e);
    }
  }

  /** Before control no pulse but the sixtieth restarts the controller. */
  lemma EarlyPulsesCount(t: Traced, e: Second)
    requires Good(t) && t.s.seqNum < 59 && e.interruptTime.Some?
    ensures var r := Pass(t, e); r.s.seqNum == t.s.seqNum + 1 && !r.s.isControlling && r.h.accepted == t.h.accepted + [RawError(t, e)]
  {
    hide Tick;
    UnlimitedAccepts(t.s, RawError(t, e));
    AcceptedStep(t.s, RawError(t, e));
  }

  /** For every run from program start, with `ServoRuns.ControlEntry` for the sixtieth pulse. */
  lemma RunRestartsIff(abs: AbsOverload, before: seq<Second>, e: Second)
    requires e.interruptTime.Some?
    ensures var t := Run(abs, before);
      && t.s.abs == abs
      && (t.s.isControlling ==> RestartRule(t, e))
      && (t.s.seqNum < 59 ==> Pass(t, e).s.seqNum == t.s.seqNum + 1 && !Pass(t, e).s.isControlling)
  {
    hide RestartRule;
    var t := Run(abs, before);
    RunIsGood(abs, before);
    RunKeepsAbs(Traced(Initial(abs), Start), before);
    if t.s.isControlling {
      ControlRestartsIff(t, e);
    }
    if t.s.seqNum < 59 {
      EarlyPulsesCount(t, e);
    }
  }

  lemma {:induction false} RunKeepsAbs(t: Traced, events: seq<Second>)
    requires t.s.Wf()
    ensures RunFrom(t, events).s.abs == t.s.abs
    decreases |events|
  {
    hide Tick;
    if events != [] {
      if events[0].interruptTime.Some? {
        TickAbs(t.s, RawError(t, events[0]));
      }
      RunKeepsAbs(Pass(t, events[0]), events[1..]);
    }
  }

  /** At program start a frequency of zero is sent, and nothing else. */
  lemma StartSendsZero(abs: AbsOverload)
    ensures Initial(abs).adjtimex == [SetFrequency(0)]
  {
  }

  // ----- latency and noise level

  /** Whether a pass ends with a restart. */
  ghost predicate Restarting(t: Traced, e: Second)
    requires t.s.Wf()
  {
    e.interruptTime.Some? && NeedsRestart(Tick(t.s, RawError(t, e)))
  }

  lemma TickLatencyIs(s: Servo, rawError: int)
    requires s.Wf()
    ensures var v := Tick(s, rawError);
      v.latency == if !v.isDelaySpike && v.isControlling && s.integrator.idx == 0 then D.Retrack(s.latency) else s.latency
  {
  }

  /** The noise level is taken anew from the latency once a minute of controlling steps, and at no other time. */
  lemma NoiseLevelFollows(t: Traced, e: Second)
    requires Good(t) && e.interruptTime.Some? && !Restarting(t, e)
    ensures var r := Pass(t, e).s;
      if !r.isDelaySpike && r.isControlling && t.s.activeCount % 60 == 0
      then r.latency.noiseLevel == NoiseLevel(t.s.latency.sysDelay)
      else r.latency.noiseLevel == t.s.latency.noiseLevel
  {
    hide Tick;
    TickLatencyIs(t.s, RawError(t, e));
    PassResult(t, e);
  }

  /** A pass measures the latency exactly if it accepts its pulse, leaves the limit at 1 and gets a delay; else it keeps it. */
  lemma CalibratesIff(t: Traced, e: Second)
    requires Good(t) && e.interruptTime.Some? && !Restarting(t, e)
    ensures var r := Pass(t, e).s;
      var l := Tick(t.s, RawError(t, e)).latency;
      && l.delayMedian == t.s.latency.delayMedian && l.spikes == t.s.latency.spikes && l.sysDelay == t.s.latency.sysDelay
      && l.Valid()
      && r.latency == if !r.isDelaySpike && r.hardLimit == 1 && e.delay.Some? then D.Measure(l, e.delay.value, 1) else l
  {
    hide Tick;
    TickLatencyIs(t.s, RawError(t, e));
    LatencyNext(t.s, RawError(t, e));
    PassResult(t, e);
  }

  /** A lost pulse changes nothing. */
  lemma LostPulseIsInert(t: Traced, delay: Option<int>)
    requires t.s.Wf()
    ensures Pass(t, Second(None, delay)) == t
  {
  }
}
