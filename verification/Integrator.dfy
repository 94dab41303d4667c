/** The one-minute rolling average of corrections and the ten integrals sampled from it once a minute. */
module Integrator {
  import opened Arith
  import opened Constants

  datatype Integrator = Integrator(
    fifo: seq<int>, fifoCount: nat, accum: int, avgCorrection: real,
    idx: nat,
    integral: seq<real>, avgIntegral: real, integralCount: nat)
  {
    ghost predicate Wf() {
      |fifo| == OFFSETFIFO_LEN && |integral| == NUM_INTEGRALS &&
      idx < SECS_PER_MINUTE && fifoCount <= SECS_PER_MINUTE
    }
  }

  const FIRST := SECS_PER_MINUTE - NUM_INTEGRALS

  /** `getAverageCorrection`. */
  function Average(g: Integrator, correction: int): Integrator
    requires g.Wf()
  {
    var accum := g.accum + correction - if g.fifoCount == SECS_PER_MINUTE then g.fifo[g.idx] else 0;
    g.(fifo := g.fifo[g.idx := correction],
       fifoCount := if g.fifoCount < SECS_PER_MINUTE then g.fifoCount + 1 else g.fifoCount,
       accum := accum,
       avgCorrection := accum as real / 60.0)
  }

  /** `makeAverageIntegral`. */
  function Integrate(g: Integrator, hardLimit: int): Integrator
    requires g.Wf()
  {
    if g.idx < FIRST then g
    else
      var i := g.idx - FIRST;
      var start := if i == 0 then 0.0 else g.avgIntegral;
      var count := if i == 0 then 0 else g.integralCount;
      var value := g.integral[i] + g.avgCorrection;
      var sum := if hardLimit == HARD_LIMIT_1 then start + value else start;
      var formed := if hardLimit == HARD_LIMIT_1 then count + 1 else count;
      g.(integral := g.integral[i := value],
         integralCount := formed,
         avgIntegral := if i == NUM_INTEGRALS - 1 && formed == NUM_INTEGRALS then sum / 10.0 else sum)
  }

  /** The index part of `integralIsReady`; the integrals are ready when the index was 0. */
  function Advance(g: Integrator): Integrator
    requires g.Wf()
  {
    g.(idx := if g.idx + 1 >= SECS_PER_MINUTE then 0 else g.idx + 1)
  }

  /** `getIntegral`. */
  function SelectIntegral(g: Integrator, hardLimit: int): real
    requires g.Wf()
  {
    if hardLimit == HARD_LIMIT_1 && g.integralCount == NUM_INTEGRALS then g.avgIntegral else g.integral[9]
  }

  /** What one controlling step does to the integrator. */
  function Feed(g: Integrator, correction: int, hardLimit: int): (r: Integrator)
    requires g.Wf()
    ensures r.Wf()
  {
    Advance(Integrate(Average(g, correction), hardLimit))
  }

  // ----- the integrator as a function of all corrections since the start of control

  /** The number of corrections that the i-th integral has absorbed after n controlling steps. */
  function Absorbed(n: nat, i: nat): (m: nat)
    requires i < NUM_INTEGRALS
    ensures m <= n
  {
    if n < FIRST + i + 1 then 0 else n - (n - (FIRST + i + 1)) % SECS_PER_MINUTE
  }

  /** How many of the last k steps ran at limit 1. */
  function Ones(limits: seq<int>, k: nat): (ones: nat)
    requires k <= |limits|
    ensures ones <= k
  {
    if k == 0 then 0
    else Ones(limits, k - 1) + if limits[|limits| - k] == HARD_LIMIT_1 then 1 else 0
  }

  function SumReal(s: seq<real>, k: nat): real
    requires k <= |s|
  {
    if k == 0 then 0.0 else SumReal(s, k - 1) + s[k - 1]
  }

  /** The number of integrals formed in the latest run through the last ten seconds of a minute. */
  function Formed(n: nat): (i: nat)
    ensures i <= NUM_INTEGRALS && i <= n
  {
    if n % SECS_PER_MINUTE > FIRST then n % SECS_PER_MINUTE - FIRST
    else if n % SECS_PER_MINUTE == 0 && n > 0 then NUM_INTEGRALS
    else 0
  }

  /** The FIFO holds the last 60 corrections in circular order and the accumulator is their sum. */
  ghost predicate RollingTracks(g: Integrator, corrections: seq<int>)
    requires g.Wf()
  {
    var n := |corrections|;
    var m := Min(n, SECS_PER_MINUTE);
    && g.idx == n % SECS_PER_MINUTE
    && g.fifoCount == m
    && (forall k :: n - m <= k < n ==> g.fifo[k % SECS_PER_MINUTE] == corrections[k])
    && g.accum == Prefix(corrections, n) - Prefix(corrections, n - m)
    && g.avgCorrection == g.accum as real / 60.0
  }

  /** Sixty times each integral is the sum of every correction it has absorbed, none missed and none counted twice. */
  ghost predicate IntegralsTelescope(g: Integrator, corrections: seq<int>)
    requires g.Wf()
  {
    forall i :: 0 <= i < NUM_INTEGRALS ==>
      g.integral[i] * 60.0 == Prefix(corrections, Absorbed(|corrections|, i)) as real
  }

  /** The average of the integrals formed so far this minute, if the limit was 1 for all of them. */
  ghost predicate AverageTracks(g: Integrator, limits: seq<int>)
    requires g.Wf()
  {
    var n := |limits|;
    var i := Formed(n);
    && (n == 0 ==> g.integralCount == 0)
    && (i > 0 ==> g.integralCount == Ones(limits, i))
    && (0 < i < NUM_INTEGRALS && g.integralCount == i ==> g.avgIntegral == SumReal(g.integral, i))
    && (i == NUM_INTEGRALS && g.integralCount == i ==> g.avgIntegral == SumReal(g.integral, i) / 10.0)
  }

  ghost predicate Tracks(g: Integrator, corrections: seq<int>, limits: seq<int>) {
    g.Wf() && |corrections| == |limits| &&
    RollingTracks(g, corrections) && IntegralsTelescope(g, corrections) && AverageTracks(g, limits)
  }

  /** Indices less than a minute apart use different slots; a minute apart, the same slot. */
  lemma Slots(k: nat, n: nat)
    requires k < n
    ensures n - k < SECS_PER_MINUTE ==> k % SECS_PER_MINUTE != n % SECS_PER_MINUTE
    ensures n - k == SECS_PER_MINUTE ==> k % SECS_PER_MINUTE == n % SECS_PER_MINUTE
  {
  }

  lemma AccumNext(corrections: seq<int>, c: int)
    ensures var n := |corrections|;
      Prefix(corrections + [c], n + 1) - Prefix(corrections + [c], n + 1 - Min(n + 1, SECS_PER_MINUTE)) ==
      Prefix(corrections, n) - Prefix(corrections, n - Min(n, SECS_PER_MINUTE)) + c
        - if n < SECS_PER_MINUTE then 0 else corrections[n - SECS_PER_MINUTE]
  {
    var n := |corrections|;
    PrefixExtend(corrections, c, n);
    PrefixExtend(corrections, c, n + 1 - Min(n + 1, SECS_PER_MINUTE));
  }

  /** Counting modulo 60. */
  lemma NextSlot(n: nat)
    ensures (n + 1) % SECS_PER_MINUTE == if n % SECS_PER_MINUTE == SECS_PER_MINUTE - 1 then 0 else n % SECS_PER_MINUTE + 1
  {
  }

  lemma FifoNext(fifo: seq<int>, corrections: seq<int>, c: int)
    requires |fifo| == OFFSETFIFO_LEN
    requires var n := |corrections|;
      forall k :: n - Min(n, SECS_PER_MINUTE) <= k < n ==> fifo[k % SECS_PER_MINUTE] == corrections[k]
    ensures var n := |corrections|;
      var next := fifo[n % SECS_PER_MINUTE := c];
      forall k :: n + 1 - Min(n + 1, SECS_PER_MINUTE) <= k < n + 1 ==>
        next[k % SECS_PER_MINUTE] == (corrections + [c])[k]
  {
    var n := |corrections|;
    var next := fifo[n % SECS_PER_MINUTE := c];
    forall k | n + 1 - Min(n + 1, SECS_PER_MINUTE) <= k < n + 1
      ensures next[k % SECS_PER_MINUTE] == (corrections + [c])[k]
    {
      if k < n {
        Slots(k, n);
      }
    }
  }

  lemma RollingNext(g: Integrator, corrections: seq<int>, c: int)
    requires g.Wf() && RollingTracks(g, corrections)
    ensures var r := Average(g, c); RollingTracks(r.(idx := Advance(r).idx), corrections + [c])
  {
    var n := |corrections|;
    AccumNext(corrections, c);
    FifoNext(g.fifo, corrections, c);
    NextSlot(n);
    if n >= SECS_PER_MINUTE {
      Slots(n - SECS_PER_MINUTE, n);
    }
  }

  lemma AbsorbedNext(n: nat, i: nat)
    requires i < NUM_INTEGRALS
    ensures Absorbed(n + 1, i) ==
      if n % SECS_PER_MINUTE == FIRST + i then n + 1 else Absorbed(n, i)
    ensures n % SECS_PER_MINUTE == FIRST + i ==> Absorbed(n, i) == n + 1 - Min(n + 1, SECS_PER_MINUTE)
  {
    var first := FIRST + i + 1;
    if n >= first {
      NextSlot(n - first);
      SameSlot(n, first);
    }
  }

  /** A step is the last before the next absorption exactly if it has the integral's own index. */
  lemma SameSlot(n: nat, first: nat)
    requires FIRST < first <= SECS_PER_MINUTE && first <= n
    ensures (n - first) % SECS_PER_MINUTE == SECS_PER_MINUTE - 1 <==> n % SECS_PER_MINUTE == first - 1
  {
  }

  lemma IntegralsNext(g: Integrator, corrections: seq<int>, c: int, hardLimit: int)
    requires g.Wf() && RollingTracks(g, corrections) && IntegralsTelescope(g, corrections)
    ensures IntegralsTelescope(Feed(g, c, hardLimit), corrections + [c])
  {
    var n, more := |corrections|, corrections + [c];
    RollingNext(g, corrections, c);
    var a := Average(g, c);
    var r := Feed(g, c, hardLimit);
    forall i | 0 <= i < NUM_INTEGRALS
      ensures r.integral[i] * 60.0 == Prefix(more, Absorbed(n + 1, i)) as real
    {
      AbsorbedNext(n, i);
      PrefixExtend(corrections, c, Absorbed(n, i));
      if g.idx == FIRST + i {
        assert r.integral[i] == g.integral[i] + a.avgCorrection;
        assert a.accum == Prefix(more, n + 1) - Prefix(more, n + 1 - Min(n + 1, 60));
      } else {
        assert r.integral[i] == g.integral[i];
      }
    }
  }

  lemma {:induction false} OnesNext(limits: seq<int>, l: int, k: nat)
    requires k <= |limits|
    ensures Ones(limits + [l], k + 1) == Ones(limits, k) + if l == HARD_LIMIT_1 then 1 else 0
  {
    if k == 0 {
      assert Ones(limits + [l], 0) == 0;
    } else {
      OnesNext(limits, l, k - 1);
    }
  }

  lemma {:induction false} SumRealSame(s: seq<real>, t: seq<real>, k: nat)
    requires k <= |s| && k <= |t| && s[..k] == t[..k]
    ensures SumReal(s, k) == SumReal(t, k)
  {
    if k > 0 {
      assert s[..k - 1] == s[..k][..k - 1] && t[..k - 1] == t[..k][..k - 1];
      assert s[k - 1] == s[..k][k - 1] && t[k - 1] == t[..k][k - 1];
      SumRealSame(s, t, k - 1);
    }
  }

  lemma AverageNext(g: Integrator, c: int, limits: seq<int>, l: int)
    requires g.Wf() && g.idx == |limits| % SECS_PER_MINUTE && AverageTracks(g, limits)
    ensures AverageTracks(Feed(g, c, l), limits + [l])
  {
    var n, r := |limits|, Feed(g, c, l);
    if g.idx >= FIRST {
      var i := g.idx - FIRST;
      assert Formed(n + 1) == i + 1;
      assert i > 0 ==> Formed(n) == i;
      OnesNext(limits, l, i);
      SumRealSame(g.integral, r.integral, i);
    } else {
      assert Formed(n + 1) == 0;
    }
  }

  /** One controlling step keeps the integrator exact. */
  lemma FeedTracks(g: Integrator, corrections: seq<int>, limits: seq<int>, c: int, l: int)
    requires Tracks(g, corrections, limits)
    ensures Tracks(Feed(g, c, l), corrections + [c], limits + [l])
  {
    RollingNext(g, corrections, c);
    IntegralsNext(g, corrections, c, l);
    AverageNext(g, c, limits, l);
  }
}
