/** Delay-spike rejection, the noise level and the ten-sample slew average. */
module Noise {
  import opened Arith
  import opened Constants

  /** `setDelayTrackers`: the noise level follows the interrupt latency, but never below the minimum. */
  function NoiseLevel(sysDelay: int): (level: int)
    ensures level >= NOISE_LEVEL_MIN
  {
    var level := Round(sysDelay as real * NOISE_FACTOR) + 1;
    if level < NOISE_LEVEL_MIN then NOISE_LEVEL_MIN else level
  }

  /** It is 0.354 times the latency plus 1 to the nearest integer, or 4 where that is less. */
  lemma NoiseLevelIs(sysDelay: int)
    ensures var x := 0.354 * sysDelay as real + 1.0;
      if x >= 3.5 then AbsR(NoiseLevel(sysDelay) as real - x) <= 0.5 else NoiseLevel(sysDelay) == 4
  {
  }

  /** The error is in the range where it is suspected to be a delay spike. */
  predicate Suspect(error: int, hardLimit: int, noiseLevel: int) {
    hardLimit <= HARD_LIMIT_4 && error >= noiseLevel
  }

  /** Whether the spike detectors suspend this sample after `spikes` suspensions in a row. */
  predicate Rejects(error: int, hardLimit: int, noiseLevel: int, spikes: nat) {
    Suspect(error, hardLimit, noiseLevel) && spikes < MAX_SPIKES
  }

  /** The run length of suspensions after this sample. */
  function NextSpikes(error: int, hardLimit: int, noiseLevel: int, spikes: nat): nat {
    if !Suspect(error, hardLimit, noiseLevel) then 0
    else if spikes < MAX_SPIKES then spikes + 1
    else spikes
  }

  datatype Slew = Slew(accum: real, cnt: nat, avg: real)

  function NextSlew(s: Slew, rawError: int): Slew {
    var accum := s.accum + rawError as real;
    if s.cnt + 1 >= SLEW_LEN then Slew(0.0, 0, accum / SLEW_LEN as real)
    else Slew(accum, s.cnt + 1, s.avg)
  }

  // ----- the slew state as a function of all samples accepted so far

  /** The start of the window being filled after n samples. */
  function WindowStart(n: nat): (start: nat)
    ensures start <= n && n - start == n % SLEW_LEN
  {
    n - n % SLEW_LEN
  }

  /** The sum of the window of ten samples ending just before index `end`. */
  function WindowSum(samples: seq<int>, end: nat): int
    requires SLEW_LEN <= end <= |samples|
  {
    Prefix(samples, end) - Prefix(samples, end - SLEW_LEN)
  }

  /** The slew accumulator holds the incomplete window, the average the last complete one. */
  ghost predicate SlewTracks(s: Slew, samples: seq<int>) {
    var start := WindowStart(|samples|);
    && s.cnt == |samples| % SLEW_LEN
    && s.accum == (Prefix(samples, |samples|) - Prefix(samples, start)) as real
    && s.avg == if start == 0 then 0.0 else WindowSum(samples, start) as real / 10.0
  }

  lemma SlewTracksNext(s: Slew, samples: seq<int>, rawError: int)
    requires SlewTracks(s, samples)
    ensures SlewTracks(NextSlew(s, rawError), samples + [rawError])
  {
    var n, start, more := |samples|, WindowStart(|samples|), samples + [rawError];
    PrefixExtend(samples, rawError, n);
    PrefixExtend(samples, rawError, start);
    if start > 0 {
      PrefixExtend(samples, rawError, start - SLEW_LEN);
    }
    assert WindowStart(n + 1) == if n % SLEW_LEN == SLEW_LEN - 1 then n + 1 else start;
  }

  /** Some complete window among the first n samples has a mean below the acquisition threshold. */
  ghost predicate HasQuietWindow(samples: seq<int>, n: nat)
    requires n <= |samples|
  {
    exists end :: QuietWindowEnds(samples, n, end)
  }

  ghost predicate QuietWindowEnds(samples: seq<int>, n: nat, end: nat)
    requires n <= |samples|
  {
    && SLEW_LEN <= end <= n
    && end % SLEW_LEN == 0
    && Abs(WindowSum(samples, end)) < 650
  }

  lemma QuietWindowNext(samples: seq<int>, rawError: int)
    ensures var more := samples + [rawError];
      HasQuietWindow(more, |more|) <==> HasQuietWindow(samples, |samples|) || QuietWindowEnds(more, |more|, |more|)
  {
    var more := samples + [rawError];
    forall end: nat | SLEW_LEN <= end <= |samples|
      ensures WindowSum(more, end) == WindowSum(samples, end)
    {
      PrefixExtend(samples, rawError, end);
      PrefixExtend(samples, rawError, end - SLEW_LEN);
    }
    if HasQuietWindow(samples, |samples|) {
      var end :| QuietWindowEnds(samples, |samples|, end);
      assert QuietWindowEnds(more, |more|, end);
    }
    if HasQuietWindow(more, |more|) {
      var end :| QuietWindowEnds(more, |more|, end);
      assert end == |more| || QuietWindowEnds(samples, |samples|, end);
    }
  }
}
