/** The latency estimate over whole runs of the controller. */
module SysDelayRuns {
  import opened Wrappers
  import opened Constants
  import opened Limiter
  import opened Noise
  import opened Servo
  import opened ServoRuns
  import D = InterruptDelay

  /** What one pass does to the estimator; it is measured only at limit 1 and after an accepted sample. */
  function PassEvents(t: Traced, e: Second): seq<D.Event>
    requires t.s.Wf()
  {
    if e.interruptTime.None? then []
    else
      var u := Tick(t.s, e.interruptTime.value - t.s.latency.sysDelay);
      TrackEvents(t.s, u) + MeasureEvents(u, e.delay)
  }

  function TrackEvents(s: Servo, u: Servo): seq<D.Event> {
    if !u.isDelaySpike && u.isControlling && s.integrator.idx == 0 then [D.Retracked] else []
  }

  function MeasureEvents(u: Servo, delay: Option<int>): seq<D.Event> {
    if Calibrates(u) && delay.Some? then [D.Measured(delay.value)] else []
  }

  function RunEvents(t: Traced, events: seq<Second>): seq<D.Event>
    requires t.s.Wf()
    decreases |events|
  {
    if events == [] then [] else PassEvents(t, events[0]) + RunEvents(Pass(t, events[0]), events[1..])
  }

  predicate Restarts(t: Traced, e: Second)
    requires t.s.Wf()
  {
    e.interruptTime.Some? && NeedsRestart(Tick(t.s, e.interruptTime.value - t.s.latency.sysDelay))
  }

  /** No pass of the run restarts the controller, which would reset the estimate. */
  ghost predicate NoRestart(t: Traced, events: seq<Second>)
    requires t.s.Wf()
    decreases |events|
  {
    events == [] || (!Restarts(t, events[0]) && NoRestart(Pass(t, events[0]), events[1..]))
  }

  lemma {:induction false} RunAppend(l: D.Latency, x: seq<D.Event>, y: seq<D.Event>)
    ensures D.Run(l, x + y) == D.Run(D.Run(l, x), y)
    decreases |x|
  {
    if x == [] {
      assert x + y == y;
    } else {
      assert (x + y)[1..] == x[1..] + y;
      RunAppend(D.Step(l, x[0]), x[1..], y);
    }
  }

  lemma TickLatency(s: Servo, rawError: int)
    requires s.Wf()
    ensures var u := Tick(s, rawError); u.latency == D.Run(s.latency, TrackEvents(s, u))
  {
  }

  lemma CalibrateLatency(u: Servo, delay: Option<int>)
    ensures Calibrate(u, delay).latency == D.Run(u.latency, MeasureEvents(u, delay))
  {
  }

  lemma PassLatency(t: Traced, e: Second)
    requires t.s.Wf() && !Restarts(t, e)
    ensures Pass(t, e).s.latency == D.Run(t.s.latency, PassEvents(t, e))
  {
    hide Tick;
    if e.interruptTime.Some? {
      var rawError := e.interruptTime.value - t.s.latency.sysDelay;
      var u := Tick(t.s, rawError);
      TickLatency(t.s, rawError);
      CalibrateLatency(u, e.delay);
      RunAppend(t.s.latency, TrackEvents(t.s, u), MeasureEvents(u, e.delay));
    }
  }

  /** Between restarts the controller's estimate is exactly a run of the estimator. */
  lemma {:induction false} RunLatency(t: Traced, events: seq<Second>)
    requires t.s.Wf() && NoRestart(t, events)
    ensures RunFrom(t, events).s.latency == D.Run(t.s.latency, RunEvents(t, events))
    decreases |events|
  {
    if events != [] {
      PassLatency(t, events[0]);
      RunLatency(Pass(t, events[0]), events[1..]);
      RunAppend(t.s.latency, PassEvents(t, events[0]), RunEvents(Pass(t, events[0]), events[1..]));
    }
  }

  /** Once in the range of all measured delays, `sysDelay` stays there for the whole run. */
  lemma SysDelayTrapped(t: Traced, events: seq<Second>, a: int, b: int)
    requires Good(t) && NoRestart(t, events) && D.DelaysWithin(RunEvents(t, events), a, b)
    requires a <= t.s.latency.sysDelay <= b
    ensures a <= RunFrom(t, events).s.latency.sysDelay <= b
  {
    RunLatency(t, events);
    D.Trapped(t.s.latency, RunEvents(t, events), a, b);
  }

  /**
   * From anywhere `sysDelay` reaches the range of the measured delays, at the latest after one calibration
   * per 1/60 microsecond above it or 31 per 1/60 microsecond below it.
   */
  lemma SysDelayConverges(t: Traced, events: seq<Second>, a: int, b: int)
    requires Good(t) && NoRestart(t, events) && D.DelaysWithin(RunEvents(t, events), a, b) && a <= b
    requires var n := D.Measurements(RunEvents(t, events));
      && n as real >= 60.0 * (t.s.latency.delayMedian - b as real)
      && n as real >= 31.0 * 60.0 * (a as real - t.s.latency.delayMedian)
    ensures a <= RunFrom(t, events).s.latency.sysDelay <= b
  {
    RunLatency(t, events);
    D.Converges(t.s.latency, RunEvents(t, events), a, b);
  }
}
