/** The adaptive clamp: `setHardLimit` and `clampJitter`. */
module Limiter {
  import opened Arith
  import opened Constants

  /** The overload of `abs` that the compiler picks for `abs(g.avgSlew)`. */
  datatype AbsOverload = IntAbs | FloatAbs

  function SlewMag(abs: AbsOverload, avgSlew: real): real {
    match abs
    case IntAbs => AbsR(avgSlew).Floor as real
    case FloatAbs => AbsR(avgSlew)
  }

  /** Four times the slew magnitude as an integer, the level that a high slew raises the limit to. */
  function SlewFloor(abs: AbsOverload, avgSlew: real): int {
    (SlewMag(abs, avgSlew) * 4.0).Floor
  }

  function RaiseTo(limit: int, floor: int): (r: int)
    requires limit >= 1
    ensures r >= limit
    decreases HARD_LIMIT_NONE - limit
  {
    if limit < floor && limit < HARD_LIMIT_NONE then RaiseTo(limit * 2, floor) else limit
  }

  /** The limit that follows `limit` when the slew is low and the average correction has magnitude `mag`. */
  function LowSlewLimit(limit: int, mag: real): int {
    if limit == HARD_LIMIT_1 then
      if mag > HARD_LIMIT_05 then limit * 2 else limit
    else if mag < HARD_LIMIT_05 then HARD_LIMIT_1
    else if mag < (limit / 4) as real then limit / 2
    else if mag > (limit / 2) as real then Min(limit * 2, HARD_LIMIT_NONE)
    else limit
  }

  function NextLimit(limit: int, activeCount: nat, abs: AbsOverload, avgSlew: real, avgCorrection: real): (r: int)
    requires limit >= 1
    ensures r >= 1
  {
    if activeCount < SECS_PER_MINUTE then HARD_LIMIT_NONE
    else if SlewMag(abs, avgSlew) > SLEW_MAX then RaiseTo(limit, SlewFloor(abs, avgSlew))
    else LowSlewLimit(limit, AbsR(avgCorrection))
  }

  function Clamp(rawError: int, limit: int): int {
    if rawError > limit then limit
    else if rawError < -limit then -limit
    else rawError
  }

  /** Clamping is the nearest point of [-limit, limit]. */
  lemma ClampIsNearest(rawError: int, limit: nat, y: int)
    requires Abs(y) <= limit
    ensures Abs(Clamp(rawError, limit)) <= limit
    ensures Abs(rawError - Clamp(rawError, limit)) <= Abs(rawError - y)
    ensures Clamp(-rawError, limit) == -Clamp(rawError, limit)
  {
  }

  /** The powers of two from 1 to 32768. */
  predicate IsLimit(limit: int) {
    || limit == 1 || limit == 2 || limit == 4 || limit == 8
    || limit == 16 || limit == 32 || limit == 64 || limit == 128
    || limit == 256 || limit == 512 || limit == 1024 || limit == 2048
    || limit == 4096 || limit == 8192 || limit == 16384 || limit == 32768
  }

  function Exponent(limit: int): nat {
    if limit == 1 then 0
    else if limit == 2 then 1 else if limit == 4 then 2
    else if limit == 8 then 3 else if limit == 16 then 4
    else if limit == 32 then 5 else if limit == 64 then 6
    else if limit == 128 then 7 else if limit == 256 then 8
    else if limit == 512 then 9 else if limit == 1024 then 10
    else if limit == 2048 then 11 else if limit == 4096 then 12
    else if limit == 8192 then 13 else if limit == 16384 then 14
    else 15
  }

  /** The loop stops at the least doubling of `limit` that reaches `floor`, or at the cap. */
  lemma {:induction false} RaiseToIsLeast(limit: int, floor: int)
    requires IsLimit(limit)
    ensures var r := RaiseTo(limit, floor);
      && IsLimit(r) && r >= limit
      && (r >= floor || r == HARD_LIMIT_NONE)
      && (r == limit || r / 2 < floor)
    decreases HARD_LIMIT_NONE - limit
  {
    if limit < floor && limit < HARD_LIMIT_NONE {
      RaiseToIsLeast(limit * 2, floor);
    }
  }

  lemma NextLimitIsLimit(limit: int, activeCount: nat, abs: AbsOverload, avgSlew: real, avgCorrection: real)
    requires IsLimit(limit)
    ensures IsLimit(NextLimit(limit, activeCount, abs, avgSlew, avgCorrection))
  {
    RaiseToIsLeast(limit, SlewFloor(abs, avgSlew));
  }

  // ----- what one step of the limit reaches

  /** The magnitude of an average as a given overload of `abs` shows it. */
  ghost function Shown(abs: AbsOverload, x: real): real {
    var m := if x < 0.0 then -x else x;
    if abs == IntAbs then m.Floor as real else m
  }

  /** Above 65 the limit is the least doubling of the old one that reaches four times the slew shown, or the cap. */
  lemma HighSlewLimit(limit: int, activeCount: nat, abs: AbsOverload, avgSlew: real, avgCorrection: real)
    requires IsLimit(limit) && activeCount >= 60 && Shown(abs, avgSlew) > 65.0
    ensures var r := NextLimit(limit, activeCount, abs, avgSlew, avgCorrection);
      var m := if avgSlew < 0.0 then -avgSlew else avgSlew;
      var d := if abs == IntAbs then 4 * m.Floor else (4.0 * m).Floor;
      && IsLimit(r) && r >= limit
      && (r >= d || r == 32768) && (r == limit || r / 2 < d)
      && (r as real > 4.0 * m - 4.0 || r == 32768) && (r == limit || (r / 2) as real < 4.0 * m)
  {
    RaiseToIsLeast(limit, SlewFloor(abs, avgSlew));
  }

  /** Up to 65, and in the first minute of control, the limit follows the average correction. */
  lemma LowSlewStep(limit: int, activeCount: nat, abs: AbsOverload, avgSlew: real, avgCorrection: real)
    requires IsLimit(limit)
    ensures var r := NextLimit(limit, activeCount, abs, avgSlew, avgCorrection);
      var m := if avgCorrection < 0.0 then -avgCorrection else avgCorrection;
      && (activeCount < 60 ==> r == 32768)
      && (activeCount >= 60 && Shown(abs, avgSlew) <= 65.0 ==>
            && (m < 0.5 ==> r == 1)
            && (m >= 0.5 && Settled(limit, m) ==> r == limit)
            && (m > 0.5 && limit == 1 ==> r == 2)
            && (m >= 0.5 && limit > 1 && m < limit as real / 4.0 ==> 2 * r == limit)
            && (limit > 1 && limit < 32768 && m > limit as real / 2.0 && m >= 0.5 ==> r == 2 * limit))
  {
  }

  // ----- a fixed average correction: the limit settles without limit-cycling

  /** The averages that hold the limit still. */
  ghost predicate Settled(limit: int, mag: real) {
    if limit == HARD_LIMIT_1 then mag <= 0.5
    else if limit == 2 then 0.5 <= mag <= 1.0
    else if limit < HARD_LIMIT_NONE then limit as real / 4.0 <= mag <= limit as real / 2.0
    else mag >= limit as real / 4.0
  }

  lemma SettledIsFixedPoint(limit: int, mag: real)
    requires IsLimit(limit)
    ensures LowSlewLimit(limit, mag) == limit <==> Settled(limit, mag)
  {
  }

  /** The limit after n iterations of `setHardLimit` at low slew. */
  ghost function Iterate(limit: int, mag: real, n: nat): int
    decreases n
  {
    if n == 0 then limit else Iterate(LowSlewLimit(limit, mag), mag, n - 1)
  }

  /** One step up is never followed by a step down, nor one down by one up; a step up doubles. */
  lemma StepKeepsDirection(limit: int, mag: real)
    requires IsLimit(limit)
    ensures var next := LowSlewLimit(limit, mag);
      && IsLimit(next)
      && (next > limit ==> LowSlewLimit(next, mag) >= next && Exponent(next) == Exponent(limit) + 1)
      && (next < limit ==> LowSlewLimit(next, mag) <= next && Exponent(next) < Exponent(limit))
  {
  }

  lemma {:induction false} IterateFixed(limit: int, mag: real, n: nat)
    requires LowSlewLimit(limit, mag) == limit
    ensures Iterate(limit, mag, n) == limit
  {
    if n > 0 {
      IterateFixed(limit, mag, n - 1);
    }
  }

  lemma {:induction false} IterateRises(limit: int, mag: real, n: nat)
    requires IsLimit(limit) && LowSlewLimit(limit, mag) >= limit
    ensures var l := Iterate(limit, mag, n);
      IsLimit(l) && l >= limit && LowSlewLimit(l, mag) >= l &&
      (LowSlewLimit(l, mag) == l || Exponent(l) >= Exponent(limit) + n)
    decreases n
  {
    StepKeepsDirection(limit, mag);
    if LowSlewLimit(limit, mag) == limit {
      IterateFixed(limit, mag, n);
    } else if n > 0 {
      IterateRises(LowSlewLimit(limit, mag), mag, n - 1);
    }
  }

  lemma {:induction false} IterateFalls(limit: int, mag: real, n: nat)
    requires IsLimit(limit) && LowSlewLimit(limit, mag) <= limit
    ensures var l := Iterate(limit, mag, n);
      IsLimit(l) && l <= limit && LowSlewLimit(l, mag) <= l &&
      (LowSlewLimit(l, mag) == l || Exponent(l) + n <= Exponent(limit))
    decreases n
  {
    StepKeepsDirection(limit, mag);
    if LowSlewLimit(limit, mag) == limit {
      IterateFixed(limit, mag, n);
    } else if n > 0 {
      IterateFalls(LowSlewLimit(limit, mag), mag, n - 1);
    }
  }

  lemma {:induction false} IterateCompose(limit: int, mag: real, m: nat, n: nat)
    ensures Iterate(limit, mag, m + n) == Iterate(Iterate(limit, mag, m), mag, n)
    decreases m
  {
    if m > 0 {
      IterateCompose(LowSlewLimit(limit, mag), mag, m - 1, n);
    }
  }

  /** At the cap the limit cannot rise, and at the bottom it cannot fall. */
  lemma EndsAreFixed(limit: int, mag: real)
    requires IsLimit(limit)
    ensures Exponent(limit) >= 15 ==> LowSlewLimit(limit, mag) <= limit
    ensures Exponent(limit) <= 0 ==> LowSlewLimit(limit, mag) >= limit
  {
  }

  lemma RisesToRest(limit: int, mag: real, m: nat, n: nat)
    requires IsLimit(limit) && LowSlewLimit(limit, mag) >= limit
    ensures Iterate(limit, mag, m) <= Iterate(limit, mag, m + n)
    ensures var l := Iterate(limit, mag, 15); IsLimit(l) && LowSlewLimit(l, mag) == l
  {
    IterateCompose(limit, mag, m, n);
    IterateRises(limit, mag, m);
    IterateRises(Iterate(limit, mag, m), mag, n);
    IterateRises(limit, mag, 15);
    EndsAreFixed(Iterate(limit, mag, 15), mag);
  }

  lemma FallsToRest(limit: int, mag: real, m: nat, n: nat)
    requires IsLimit(limit) && LowSlewLimit(limit, mag) <= limit
    ensures Iterate(limit, mag, m) >= Iterate(limit, mag, m + n)
    ensures var l := Iterate(limit, mag, 15); IsLimit(l) && LowSlewLimit(l, mag) == l
  {
    IterateCompose(limit, mag, m, n);
    IterateFalls(limit, mag, m);
    IterateFalls(Iterate(limit, mag, m), mag, n);
    IterateFalls(limit, mag, 15);
    EndsAreFixed(Iterate(limit, mag, 15), mag);
  }

  lemma IterateOnce(limit: int, mag: real)
    ensures Iterate(limit, mag, 1) == LowSlewLimit(limit, mag)
  {
    assert Iterate(limit, mag, 1) == Iterate(LowSlewLimit(limit, mag), mag, 0);
  }

  /** The whole sequence of limits moves one way only and is at rest, in the settled band, after 15 steps. */
  lemma LimitSettles(limit: int, mag: real, m: nat, n: nat)
    requires IsLimit(limit)
    ensures limit <= Iterate(limit, mag, 1) ==> Iterate(limit, mag, m) <= Iterate(limit, mag, m + n)
    ensures limit >= Iterate(limit, mag, 1) ==> Iterate(limit, mag, m) >= Iterate(limit, mag, m + n)
    ensures Settled(Iterate(limit, mag, 15), mag)
    ensures Iterate(limit, mag, 15 + n) == Iterate(limit, mag, 15)
  {
    IterateOnce(limit, mag);
    if LowSlewLimit(limit, mag) >= limit {
      RisesToRest(limit, mag, m, n);
    }
    if LowSlewLimit(limit, mag) <= limit {
      FallsToRest(limit, mag, m, n);
    }
    var l := Iterate(limit, mag, 15);
    SettledIsFixedPoint(l, mag);
    IterateFixed(l, mag, n);
    IterateCompose(limit, mag, 15, n);
  }
}
