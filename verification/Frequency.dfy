/** The once-a-minute frequency command in closed form. */
module Frequency {
  import opened Arith
  import opened Constants
  import opened Integrator

  /** `(long)round(ADJTIMEX_SCALE * freqOffset)` for a given integral. */
  function Scaled(integral: real): int {
    Round(ADJTIMEX_SCALE * (integral * INTEGRAL_GAIN))
  }

  /** A command is its integral scaled by 65536 times the integral gain, to the nearest integer. */
  lemma ScaledIsNearest(integral: real)
    ensures AbsR(Scaled(integral) as real - 65536.0 * (0.63212 * integral)) <= 0.5
    ensures integral >= 0.0 ==> Scaled(integral) >= 0
    ensures integral <= 0.0 ==> Scaled(integral) <= 0
  {
    assert ADJTIMEX_SCALE * (integral * INTEGRAL_GAIN) == 65536.0 * (0.63212 * integral);
  }

  lemma ScaledIsMonotone(x: real, y: real)
    requires x <= y
    ensures Scaled(x) <= Scaled(y)
  {
    var a, b := ADJTIMEX_SCALE * (x * INTEGRAL_GAIN), ADJTIMEX_SCALE * (y * INTEGRAL_GAIN);
    assert a <= b;
    RoundAtLeast(a, Round(a));
    RoundAtLeast(b, Round(a));
  }

  /** The sum of k prefix sums, the first over all but the last nine of n corrections, each one longer than the one before. */
  ghost function Staircase(corrections: seq<int>, n: nat, k: nat): int
    requires k <= NUM_INTEGRALS <= n <= |corrections|
  {
    if k == 0 then 0 else Staircase(corrections, n, k - 1) + Prefix(corrections, n - NUM_INTEGRALS + k)
  }

  /** The limit was 1 at step n and at the ten steps before it. */
  ghost predicate ClampedThrough(limits: seq<int>, n: nat)
    requires n < |limits|
  {
    n >= NUM_INTEGRALS && forall k :: n - NUM_INTEGRALS <= k <= n ==> limits[k] == HARD_LIMIT_1
  }

  /** The integral that step n commands: the mean of ten one-second-offset integrals of all corrections, or the last one. */
  ghost function Commanded(corrections: seq<int>, limits: seq<int>, n: nat): real
    requires n <= |corrections| && n < |limits|
  {
    if ClampedThrough(limits, n) then Staircase(corrections, n, NUM_INTEGRALS) as real / 600.0
    else Prefix(corrections, n) as real / 60.0
  }

  lemma {:induction false} OnesFull(limits: seq<int>, k: nat)
    requires k <= |limits|
    ensures Ones(limits, k) == k <==> forall j :: |limits| - k <= j < |limits| ==> limits[j] == HARD_LIMIT_1
  {
    if k > 0 {
      OnesFull(limits, k - 1);
    }
  }

  /** At a full minute the integrals have absorbed all but the last 9, 8, ..., 0 corrections. */
  lemma AbsorbedAtMinute(n: nat, i: nat)
    requires n % SECS_PER_MINUTE == 0 && n > 0 && i < NUM_INTEGRALS
    ensures Absorbed(n, i) == n - NUM_INTEGRALS + i + 1
  {
  }

  lemma {:induction false} IntegralsAreStaircase(g: Integrator, corrections: seq<int>, k: nat)
    requires g.Wf() && IntegralsTelescope(g, corrections)
    requires |corrections| % SECS_PER_MINUTE == 0 && |corrections| > 0 && k <= NUM_INTEGRALS
    ensures SumReal(g.integral, k) * 60.0 == Staircase(corrections, |corrections|, k) as real
  {
    if k > 0 {
      IntegralsAreStaircase(g, corrections, k - 1);
      var n := |corrections|;
      AbsorbedAtMinute(n, k - 1);
      assert g.integral[k - 1] * 60.0 == Prefix(corrections, n - NUM_INTEGRALS + k) as real;
    }
  }

  /** At an update step the selected integral is the closed form of the history, so it is always a normalised one. */
  lemma SelectedIsCommanded(g: Integrator, corrections: seq<int>, limits: seq<int>, c: int, l: int)
    requires Tracks(g, corrections, limits) && g.idx == 0
    ensures SelectIntegral(Feed(g, c, l), l) == Commanded(corrections, limits + [l], |limits|)
  {
    var n := |limits|;
    if n > 0 {
      OnesFull(limits, NUM_INTEGRALS);
      var more := limits + [l];
      assert more[n] == l && forall k :: 0 <= k < n ==> more[k] == limits[k];
      IntegralsAreStaircase(g, corrections, NUM_INTEGRALS);
      AbsorbedAtMinute(n, 9);
    } else {
      assert Absorbed(n, 9) == 0;
    }
    assert g.integral[9] * 60.0 == Prefix(corrections, n) as real;
  }

  lemma {:induction false} StaircaseExtend(corrections: seq<int>, c: int, n: nat, k: nat)
    requires k <= NUM_INTEGRALS <= n <= |corrections|
    ensures Staircase(corrections + [c], n, k) == Staircase(corrections, n, k)
  {
    if k > 0 {
      StaircaseExtend(corrections, c, n, k - 1);
      PrefixExtend(corrections, c, n - NUM_INTEGRALS + k);
    }
  }

  /** Later corrections do not change what an earlier step commanded. */
  lemma CommandedExtend(corrections: seq<int>, limits: seq<int>, c: int, l: int, n: nat)
    requires n <= |corrections| && n < |limits|
    ensures Commanded(corrections + [c], limits + [l], n) == Commanded(corrections, limits, n)
  {
    var more := limits + [l];
    assert forall k :: 0 <= k <= n ==> more[k] == limits[k];
    PrefixExtend(corrections, c, n);
    if n >= NUM_INTEGRALS {
      StaircaseExtend(corrections, c, n, NUM_INTEGRALS);
    }
  }

  /** The minutes started by n controlling steps. */
  function Minutes(n: nat): nat {
    (n + SECS_PER_MINUTE - 1) / SECS_PER_MINUTE
  }

  lemma MinutesNext(n: nat)
    ensures n % SECS_PER_MINUTE == 0 ==> Minutes(n) * SECS_PER_MINUTE == n && Minutes(n + 1) == Minutes(n) + 1
    ensures n % SECS_PER_MINUTE != 0 ==> Minutes(n + 1) == Minutes(n)
  {
  }

  lemma MinuteStarted(n: nat, k: nat)
    requires k < Minutes(n)
    ensures k * SECS_PER_MINUTE < n
  {
  }

  /** One command per started minute of controlling steps, each the closed form of the history before its step. */
  ghost predicate CommandsExact(corrections: seq<int>, limits: seq<int>, commands: seq<int>) {
    && |corrections| == |limits|
    && |commands| == Minutes(|corrections|)
    && forall k :: 0 <= k < |commands| ==> CommandExact(corrections, limits, commands[k], k)
  }

  ghost predicate CommandExact(corrections: seq<int>, limits: seq<int>, command: int, k: nat) {
    var n := k * SECS_PER_MINUTE;
    n <= |corrections| && n < |limits| && command == Scaled(Commanded(corrections, limits, n))
  }

  lemma CommandsKept(corrections: seq<int>, limits: seq<int>, commands: seq<int>, c: int, l: int, k: nat)
    requires CommandsExact(corrections, limits, commands) && k < |commands|
    ensures CommandExact(corrections + [c], limits + [l], commands[k], k)
  {
    MinuteStarted(|limits|, k);
    assert CommandExact(corrections, limits, commands[k], k);
    CommandedExtend(corrections, limits, c, l, k * SECS_PER_MINUTE);
  }

  /** A controlling step adds exactly the command that `SelectIntegral` gives, and only if it starts a minute. */
  lemma CommandsNext(g: Integrator, corrections: seq<int>, limits: seq<int>, commands: seq<int>, c: int, l: int)
    requires CommandsExact(corrections, limits, commands) && Tracks(g, corrections, limits)
    ensures CommandsExact(corrections + [c], limits + [l],
      commands + if g.idx == 0 then [Scaled(SelectIntegral(Feed(g, c, l), l))] else [])
  {
    var n := |limits|;
    MinutesNext(n);
    var more := commands + if g.idx == 0 then [Scaled(SelectIntegral(Feed(g, c, l), l))] else [];
    forall k | 0 <= k < |more|
      ensures CommandExact(corrections + [c], limits + [l], more[k], k)
    {
      if k < |commands| {
        CommandsKept(corrections, limits, commands, c, l, k);
      } else {
        SelectedIsCommanded(g, corrections, limits, c, l);
        CommandedIgnoresLast(corrections, c, limits + [l], n);
      }
    }
  }

  /** What a step commands does not depend on its own correction. */
  lemma CommandedIgnoresLast(corrections: seq<int>, c: int, limits: seq<int>, n: nat)
    requires n == |corrections| && n < |limits|
    ensures Commanded(corrections + [c], limits, n) == Commanded(corrections, limits, n)
  {
    PrefixExtend(corrections, c, n);
    if n >= NUM_INTEGRALS {
      StaircaseExtend(corrections, c, n, NUM_INTEGRALS);
    }
  }
}
