/** The interrupt-latency estimator of `getInterruptDelay`. */
module InterruptDelay {
  import opened Arith
  import opened Constants
  import opened Limiter
  import opened Noise

  datatype Latency = Latency(noiseLevel: int, spikes: nat, delayMedian: real, sysDelay: int,
                             intrptDelay: int, intrptError: int)
  {
    ghost predicate Valid() {
      noiseLevel >= NOISE_LEVEL_MIN && spikes <= MAX_SPIKES && sysDelay == Round(delayMedian)
    }
  }

  const InitialLatency := Latency(0, 0, INTERRUPT_LATENCY as real, INTERRUPT_LATENCY, 0, 0)

  /** `setDelayTrackers`. */
  function Retrack(l: Latency): Latency {
    l.(noiseLevel := NoiseLevel(l.sysDelay))
  }

  /** One calibration measurement. */
  function Measure(l: Latency, delay: int, hardLimit: int): Latency {
    var error := delay - l.sysDelay;
    var zeroError := if Rejects(error, hardLimit, l.noiseLevel, l.spikes) then 0 else Clamp(error, hardLimit);
    var median := l.delayMedian + zeroError as real / 60.0;
    Latency(l.noiseLevel, NextSpikes(error, hardLimit, l.noiseLevel, l.spikes), median, Round(median), delay, error)
  }

  /** A measurement moves the median by 1/60 toward the delay, unless it is rejected; the estimate is the median rounded. */
  lemma MeasureMoves(l: Latency, delay: int)
    requires l.Valid()
    ensures var m := Measure(l, delay, 1);
      var error := delay - l.sysDelay;
      && m.noiseLevel == l.noiseLevel && AbsR(m.sysDelay as real - m.delayMedian) <= 0.5
      && (if error >= l.noiseLevel then m.spikes == if l.spikes < 30 then l.spikes + 1 else 30 else m.spikes == 0)
      && m.delayMedian == l.delayMedian +
           if error >= l.noiseLevel && l.spikes < 30 then 0.0
           else if error > 0 then 1.0 / 60.0 else if error < 0 then -1.0 / 60.0 else 0.0
  {
  }

  /** What happens to the estimator: calibration at limit 1, and a new noise level once a minute. */
  datatype Event = Measured(delay: int) | Retracked

  function Step(l: Latency, e: Event): Latency {
    match e
    case Measured(delay) => Measure(l, delay, HARD_LIMIT_1)
    case Retracked => Retrack(l)
  }

  function Run(l: Latency, events: seq<Event>): Latency
    decreases |events|
  {
    if events == [] then l else Run(Step(l, events[0]), events[1..])
  }

  function Measurements(events: seq<Event>): nat
    decreases |events|
  {
    if events == [] then 0 else (if events[0].Measured? then 1 else 0) + Measurements(events[1..])
  }

  ghost predicate DelaysWithin(events: seq<Event>, a: int, b: int) {
    forall k :: 0 <= k < |events| && events[k].Measured? ==> a <= events[k].delay <= b
  }

  ghost predicate Within(l: Latency, a: int, b: int) {
    a <= l.sysDelay <= b
  }

  lemma StepIsValid(l: Latency, e: Event)
    requires l.Valid()
    ensures Step(l, e).Valid()
  {
  }

  /** One measurement cannot push the estimate out of the range of the measured delays. */
  lemma MeasureTrapped(l: Latency, delay: int, a: int, b: int)
    requires l.Valid() && a <= delay <= b && Within(l, a, b)
    ensures Within(Measure(l, delay, HARD_LIMIT_1), a, b)
  {
    RoundAtLeast(l.delayMedian, a + 1);
    RoundAtLeast(l.delayMedian, a);
    RoundAtLeast(l.delayMedian, b);
    RoundAtLeast(l.delayMedian, b + 1);
    var m := Measure(l, delay, HARD_LIMIT_1).delayMedian;
    RoundAtLeast(m, a);
    RoundAtLeast(m, b + 1);
  }

  /** Above the range every measurement lowers the median by exactly 1/60 and cannot jump over the range. */
  lemma MeasureFromAbove(l: Latency, delay: int, a: int, b: int)
    requires l.Valid() && a <= delay <= b < l.sysDelay
    ensures var m := Measure(l, delay, HARD_LIMIT_1);
      m.delayMedian == l.delayMedian - 1.0 / 60.0 && m.sysDelay >= b
  {
    RoundAtLeast(l.delayMedian, b + 1);
    RoundAtLeast(l.delayMedian - 1.0 / 60.0, b);
  }

  /** Below the range a measurement either raises the median by exactly 1/60 or uses up one of at most 30 rejections. */
  lemma MeasureFromBelow(l: Latency, delay: int, a: int, b: int)
    requires l.Valid() && l.sysDelay < a <= delay <= b
    ensures var m := Measure(l, delay, HARD_LIMIT_1);
      && m.sysDelay <= a
      && (|| m.delayMedian == l.delayMedian + 1.0 / 60.0
          || (m.delayMedian == l.delayMedian && l.spikes < MAX_SPIKES && m.spikes == l.spikes + 1))
  {
    RoundAtLeast(l.delayMedian, a);
    RoundAtLeast(l.delayMedian, a + 1);
    RoundAtLeast(l.delayMedian + 1.0 / 60.0, a + 1);
  }

  /** Once within the range of all measured delays, the estimate stays there for every run. */
  lemma {:induction false} Trapped(l: Latency, events: seq<Event>, a: int, b: int)
    requires l.Valid() && DelaysWithin(events, a, b) && Within(l, a, b)
    ensures Run(l, events).Valid() && Within(Run(l, events), a, b)
    decreases |events|
  {
    if events != [] {
      StepIsValid(l, events[0]);
      if events[0].Measured? {
        MeasureTrapped(l, events[0].delay, a, b);
      }
      Trapped(Step(l, events[0]), events[1..], a, b);
    }
  }

  /** An estimate beyond the range means a median beyond the range on the same side. */
  lemma OutsideMeansMedianOutside(l: Latency, a: int, b: int)
    requires l.Valid() && a <= b
    ensures l.sysDelay > b ==> l.delayMedian > b as real
    ensures l.sysDelay < a ==> l.delayMedian < a as real
  {
    RoundAtLeast(l.delayMedian, b + 1);
    RoundAtLeast(l.delayMedian, a);
  }

  /** From anywhere the estimate reaches the range: one measurement per 1/60 from above, 31 per 1/60 from below. */
  lemma {:induction false} Converges(l: Latency, events: seq<Event>, a: int, b: int)
    requires l.Valid() && a <= b && DelaysWithin(events, a, b)
    requires Measurements(events) as real >= 60.0 * (l.delayMedian - b as real)
    requires (Measurements(events) + l.spikes) as real >= 31.0 * 60.0 * (a as real - l.delayMedian)
    ensures Within(Run(l, events), a, b)
    decreases |events|
  {
    if Within(l, a, b) {
      Trapped(l, events, a, b);
    } else {
      OutsideMeansMedianOutside(l, a, b);
      if events == [] {
        BelowKeepsDistance(l, a);
      } else {
        var m := Step(l, events[0]);
        StepIsValid(l, events[0]);
        if events[0].Measured? {
          var delay := events[0].delay;
          if l.sysDelay > b {
            MeasureFromAbove(l, delay, a, b);
          } else {
            MeasureFromBelow(l, delay, a, b);
            RoundAtLeast(m.delayMedian, a + 1);
          }
        }
        Converges(m, events[1..], a, b);
      }
    }
  }

  /** Below the range the distance outweighs every stored rejection. */
  lemma BelowKeepsDistance(l: Latency, a: int)
    requires l.Valid() && l.sysDelay < a
    ensures l.spikes as real < 31.0 * 60.0 * (a as real - l.delayMedian)
  {
    RoundAtLeast(l.delayMedian, a);
  }
}
