/** The tolerance on a single interrupt event at a given probability, from the distribution of past delays. */
module Tolerance {

  function AbsI(x: int): nat {
    if x < 0 then -x else x
  }

  // ----- masses

  function Mass(d: seq<real>): real {
    if d == [] then 0.0 else Mass(d[..|d| - 1]) + d[|d| - 1]
  }

  ghost predicate NonNegative(d: seq<real>) {
    forall i :: 0 <= i < |d| ==> d[i] >= 0.0
  }

  function NonEmpty(d: seq<real>): (n: nat)
    ensures n <= |d|
  {
    if d == [] then 0 else NonEmpty(d[..|d| - 1]) + if d[|d| - 1] != 0.0 then 1 else 0
  }

  lemma {:induction false} MassBounds(d: seq<real>, i: nat)
    requires NonNegative(d) && i < |d|
    ensures 0.0 <= d[i] <= Mass(d)
    ensures d[i] > 0.0 ==> NonEmpty(d) >= 1
  {
    var front := d[..|d| - 1];
    MassNonNegative(front);
    if i < |front| {
      MassBounds(front, i);
    }
  }

  lemma {:induction false} MassNonNegative(d: seq<real>)
    requires NonNegative(d)
    ensures Mass(d) >= 0.0
    ensures Mass(d) > 0.0 <==> NonEmpty(d) > 0
  {
    if d != [] {
      MassNonNegative(d[..|d| - 1]);
    }
  }

  /** Emptying one bin removes its mass and, if it was not empty, one bin. */
  lemma {:induction false} MassWithout(d: seq<real>, i: nat)
    requires i < |d|
    ensures Mass(d[i := 0.0]) == Mass(d) - d[i]
    ensures NonEmpty(d[i := 0.0]) == NonEmpty(d) - if d[i] != 0.0 then 1 else 0
  {
    var n := |d| - 1;
    if i < n {
      assert d[i := 0.0][..n] == d[..n][i := 0.0];
      MassWithout(d[..n], i);
    } else {
      assert d[i := 0.0][..n] == d[..n];
    }
  }

  /** Some bin is not empty. */
  lemma {:induction false} SomeBin(d: seq<real>) returns (i: nat)
    requires NonNegative(d) && Mass(d) > 0.0
    ensures i < |d| && d[i] > 0.0
  {
    var n := |d| - 1;
    if d[n] > 0.0 {
      i := n;
    } else {
      i := SomeBin(d[..n]);
    }
  }

  // ----- the trim loop as a step function

  /** The working distribution, the mass taken off so far, and the index last chosen. */
  datatype Trim = Trim(prob: seq<real>, accum: real, minIdx: nat)

  /** The scan for the least non-empty bin below `minProb`, from bin i on; it keeps `minIdx` if there is none. */
  function Scan(prob: seq<real>, i: nat, minProb: real, minIdx: nat): (m: nat)
    requires i <= |prob| && minIdx < |prob|
    ensures m < |prob|
    decreases |prob| - i
  {
    if i == |prob| then minIdx
    else if prob[i] != 0.0 && prob[i] < minProb then Scan(prob, i + 1, prob[i], i)
    else Scan(prob, i + 1, minProb, minIdx)
  }

  function Step(t: Trim, tailProb: real): (u: Trim)
    requires t.minIdx < |t.prob|
    ensures u.minIdx < |u.prob| == |t.prob|
  {
    var m := Scan(t.prob, 0, 1.0, t.minIdx);
    var accum := t.accum + t.prob[m];
    Trim(if accum < tailProb then t.prob[m := 0.0] else t.prob, accum, m)
  }

  /** The state after n passes of the loop. */
  function Steps(d: seq<real>, tailProb: real, n: nat): (t: Trim)
    requires d != []
    ensures t.minIdx < |t.prob| == |d|
  {
    if n == 0 then Trim(d, 0.0, 0) else Step(Steps(d, tailProb, n - 1), tailProb)
  }

  /** The scan finds a least non-empty bin if one is below its starting bound, and else changes nothing. */
  lemma {:induction false} ScanFindsLeast(prob: seq<real>, i: nat, minProb: real, minIdx: nat)
    requires i <= |prob| && minIdx < |prob|
    ensures var m := Scan(prob, i, minProb, minIdx);
      && ((forall j :: i <= j < |prob| && prob[j] != 0.0 ==> prob[j] >= minProb) ==> m == minIdx)
      && ((exists j :: i <= j < |prob| && prob[j] != 0.0 && prob[j] < minProb) ==>
            && i <= m && prob[m] != 0.0 && prob[m] < minProb
            && forall j :: i <= j < |prob| && prob[j] != 0.0 ==> prob[m] <= prob[j])
    decreases |prob| - i
  {
    if i < |prob| {
      if prob[i] != 0.0 && prob[i] < minProb {
        ScanFindsLeast(prob, i + 1, prob[i], i);
      } else {
        ScanFindsLeast(prob, i + 1, minProb, minIdx);
      }
    }
  }

  // ----- what the loop keeps

  /** A normalised distribution. */
  ghost predicate Distribution(d: seq<real>) {
    d != [] && NonNegative(d) && Mass(d) == 1.0
  }

  /** At least two bins are not empty. */
  ghost predicate TwoBins(d: seq<real>) {
    NonEmpty(d) >= 2
  }

  /** The bins emptied so far had no more mass each than any bin kept. */
  ghost predicate Greedy(d: seq<real>, prob: seq<real>) {
    && |prob| == |d|
    && (forall i :: 0 <= i < |d| ==> prob[i] == d[i] || prob[i] == 0.0)
    && (forall i, j :: 0 <= i < |d| && 0 <= j < |d| && prob[i] != d[i] && prob[j] != 0.0 ==> d[i] <= d[j])
  }

  /** Before the budget is used up, the mass taken off is exactly the mass missing. */
  ghost predicate Trimming(d: seq<real>, t: Trim) {
    && t.minIdx < |t.prob| == |d|
    && NonNegative(t.prob) && Greedy(d, t.prob)
    && t.accum == 1.0 - Mass(t.prob)
  }

  /** The loop can end: the budget is empty from the start, or it is at most all and the least bin is below 1 or the first. */
  ghost predicate CanEnd(d: seq<real>, tailProb: real)
    requires d != []
  {
    tailProb <= 0.0 || (tailProb <= 1.0 && (TwoBins(d) || d[0] != 0.0))
  }

  lemma TrimmingStep(d: seq<real>, t: Trim, tailProb: real)
    requires Distribution(d) && Trimming(d, t) && t.accum < tailProb
    ensures var u := Step(t, tailProb);
      && u.accum <= 1.0
      && (u.accum < tailProb ==> Trimming(d, u))
  {
    var m := Scan(t.prob, 0, 1.0, t.minIdx);
    ScanFindsLeast(t.prob, 0, 1.0, t.minIdx);
    MassBounds(t.prob, m);
    MassWithout(t.prob, m);
    OnlyFullBinHidesOthers(d, t.prob);
  }

  /** If no bin is left below 1, only a bin with all the mass can be left, and nothing has been taken off. */
  lemma OnlyFullBinHidesOthers(d: seq<real>, prob: seq<real>)
    requires Distribution(d) && NonNegative(prob) && Greedy(d, prob)
    ensures (forall j :: 0 <= j < |prob| && prob[j] != 0.0 ==> prob[j] >= 1.0) && Mass(prob) > 0.0 ==>
      Mass(prob) == 1.0
  {
    if (forall j :: 0 <= j < |prob| && prob[j] != 0.0 ==> prob[j] >= 1.0) && Mass(prob) > 0.0 {
      var j := SomeBin(prob);
      MassBounds(prob, j);
      GreedyMass(d, prob);
    }
  }

  lemma {:induction false} GreedyMass(d: seq<real>, prob: seq<real>)
    requires |prob| == |d| && NonNegative(d) && forall i :: 0 <= i < |d| ==> prob[i] == d[i] || prob[i] == 0.0
    ensures Mass(prob) <= Mass(d)
    ensures NonEmpty(prob) <= NonEmpty(d)
  {
    if d != [] {
      GreedyMass(d[..|d| - 1], prob[..|d| - 1]);
    }
  }

  /** If two bins are not empty, none holds all the mass; if only one is not, it does. */
  lemma BinSizes(d: seq<real>, i: nat)
    requires Distribution(d) && i < |d|
    ensures TwoBins(d) ==> d[i] < 1.0
    ensures !TwoBins(d) && d[i] != 0.0 ==> d[i] == 1.0
  {
    MassWithout(d, i);
    MassNonNegative(d[i := 0.0]);
  }

  /** What lets the loop end: two bins to choose from, or the first pass taking the full first bin. */
  ghost predicate Productive(d: seq<real>, t: Trim) {
    TwoBins(d) || (d[..] == t.prob && t.minIdx == 0 && d != [] && d[0] != 0.0)
  }

  /** Every pass that does not end the loop empties one more bin, and never the last one. */
  lemma StepProgress(d: seq<real>, t: Trim, tailProb: real)
    requires Distribution(d) && Trimming(d, t) && t.accum < tailProb <= 1.0 && Productive(d, t)
    ensures var u := Step(t, tailProb);
      && t.prob[u.minIdx] > 0.0
      && (forall j :: 0 <= j < |d| && t.prob[j] != 0.0 ==> t.prob[u.minIdx] <= t.prob[j])
      && (u.accum < tailProb ==> NonEmpty(u.prob) < NonEmpty(t.prob) && Productive(d, u))
  {
    var m := Scan(t.prob, 0, 1.0, t.minIdx);
    ScanFindsLeast(t.prob, 0, 1.0, t.minIdx);
    MassWithout(t.prob, m);
    if TwoBins(d) {
      var j := SomeBin(t.prob);
      BinSizes(d, j);
    } else {
      forall j | 0 <= j < |d| && d[j] != 0.0
        ensures d[j] == 1.0
      {
        BinSizes(d, j);
      }
    }
  }

  /** The loop ends exactly if it can. */
  lemma LoopEndsIffCanEnd(d: seq<real>, tailProb: real)
    requires Distribution(d)
    ensures (exists n :: Steps(d, tailProb, n).accum >= tailProb) <==> CanEnd(d, tailProb)
  {
    if CanEnd(d, tailProb) {
      if tailProb <= 0.0 {
        assert Steps(d, tailProb, 0).accum >= tailProb;
      } else {
        var n := EndsAfter(d, tailProb, 0);
      }
    } else {
      forall n: nat
        ensures Steps(d, tailProb, n).accum < tailProb
      {
        NeverEnds(d, tailProb, n);
      }
    }
  }

  lemma {:induction false} EndsAfter(d: seq<real>, tailProb: real, k: nat) returns (n: nat)
    requires Distribution(d) && tailProb <= 1.0
    requires var t := Steps(d, tailProb, k); t.accum < tailProb && Trimming(d, t) && Productive(d, t)
    ensures Steps(d, tailProb, n).accum >= tailProb
    decreases NonEmpty(Steps(d, tailProb, k).prob)
  {
    var t := Steps(d, tailProb, k);
    StepProgress(d, t, tailProb);
    TrimmingStep(d, t, tailProb);
    if Steps(d, tailProb, k + 1).accum >= tailProb {
      n := k + 1;
    } else {
      n := EndsAfter(d, tailProb, k + 1);
    }
  }

  lemma {:induction false} NeverEnds(d: seq<real>, tailProb: real, n: nat)
    requires Distribution(d) && !CanEnd(d, tailProb)
    ensures var t := Steps(d, tailProb, n);
      t.accum < tailProb && Trimming(d, t) && (tailProb <= 1.0 ==> t == Trim(d, 0.0, 0))
  {
    if n > 0 {
      NeverEnds(d, tailProb, n - 1);
      var t := Steps(d, tailProb, n - 1);
      TrimmingStep(d, t, tailProb);
      if tailProb <= 1.0 {
        forall j | 0 <= j < |d| && d[j] != 0.0
          ensures d[j] == 1.0
        {
          BinSizes(d, j);
        }
        ScanFindsLeast(d, 0, 1.0, 0);
        assert d[0 := 0.0] == d;
      }
    }
  }

  /** A file with all samples in its second bin, at any probability below one: no number of passes ends the loop. */
  lemma SecondBinNeverEnds(probability: real)
    requires probability < 1.0
    ensures var d, tailProb := Normalised([0.0, 1.0]), 1.0 - probability;
      Distribution(d) && forall n: nat :: Steps(d, tailProb, n).accum < tailProb
  {
    var tailProb := 1.0 - probability;
    var bins := [0.0, 1.0];
    assert bins[..1] == [0.0] && [0.0][..0] == [];
    assert Mass([0.0]) == Mass([]) + 0.0 && NonEmpty([0.0]) == 0;
    assert Mass(bins) == 1.0 && NonEmpty(bins) == 1;
    var d := Normalised(bins);
    NormalisedIsDistribution(bins, tailProb);
    forall n: nat
      ensures Steps(d, tailProb, n).accum < tailProb
    {
      NeverEnds(d, tailProb, n);
    }
  }

  // ----- what the loop leaves

  /** The kept bins carry more than the probability asked for, and emptying any one more would use up the tail budget. */
  ghost predicate Trimmed(d: seq<real>, prob: seq<real>, tailProb: real) {
    && NonNegative(prob) && Greedy(d, prob)
    && Mass(prob) > 0.0
    && (if tailProb <= 0.0 then prob == d else Mass(prob) > 1.0 - tailProb)
    && (forall m :: 0 <= m < |prob| && prob[m] != 0.0 ==> 1.0 - Mass(prob) + prob[m] >= tailProb)
  }

  lemma TrimmedAtEnd(d: seq<real>, t: Trim, tailProb: real)
    requires Distribution(d) && Trimming(d, t) && t.accum < tailProb <= 1.0 && Productive(d, t)
    requires Step(t, tailProb).accum >= tailProb
    ensures Trimmed(d, Step(t, tailProb).prob, tailProb)
  {
    GreedyMass(d, t.prob);
    StepProgress(d, t, tailProb);
  }

  // ----- optimality, by exchange

  /** The mass and the number of the bins selected. */
  function MassOf(d: seq<real>, sel: seq<bool>): real
    requires |sel| == |d|
  {
    if d == [] then 0.0
    else MassOf(d[..|d| - 1], sel[..|d| - 1]) + if sel[|d| - 1] then d[|d| - 1] else 0.0
  }

  function CountOf(sel: seq<bool>): nat {
    if sel == [] then 0 else CountOf(sel[..|sel| - 1]) + if sel[|sel| - 1] then 1 else 0
  }

  /** The mass of the bins selected in excess of theta for each. */
  function Excess(d: seq<real>, sel: seq<bool>, theta: real): real
    requires |sel| == |d|
  {
    if d == [] then 0.0
    else Excess(d[..|d| - 1], sel[..|d| - 1], theta) + if sel[|d| - 1] then d[|d| - 1] - theta else 0.0
  }

  lemma {:induction false} ExcessIs(d: seq<real>, sel: seq<bool>, theta: real)
    requires |sel| == |d|
    ensures Excess(d, sel, theta) == MassOf(d, sel) - Weight(theta, CountOf(sel))
  {
    if d != [] {
      ExcessIs(d[..|d| - 1], sel[..|d| - 1], theta);
    }
  }

  /** Selecting bins of at least theta instead of bins of at most theta loses no excess. */
  lemma {:induction false} Exchange(d: seq<real>, s: seq<bool>, k: seq<bool>, theta: real)
    requires |s| == |k| == |d|
    requires forall i :: 0 <= i < |d| && k[i] && !s[i] ==> d[i] <= theta
    requires forall i :: 0 <= i < |d| && s[i] && !k[i] ==> d[i] >= theta
    ensures Excess(d, s, theta) >= Excess(d, k, theta)
  {
    if d != [] {
      Exchange(d[..|d| - 1], s[..|d| - 1], k[..|d| - 1], theta);
    }
  }

  /** The bins emptied, and bin m. */
  function EmptiedAnd(d: seq<real>, prob: seq<real>, m: nat): (s: seq<bool>)
    requires |prob| == |d|
    ensures |s| == |d|
    ensures forall i :: 0 <= i < |d| ==> s[i] == (prob[i] != d[i] || i == m)
  {
    seq(|d|, i requires 0 <= i < |d| => prob[i] != d[i] || i == m)
  }

  lemma {:induction false} EmptiedMass(d: seq<real>, prob: seq<real>, m: nat)
    requires |prob| == |d| && forall i :: 0 <= i < |d| ==> prob[i] == d[i] || prob[i] == 0.0
    requires m < |d| ==> prob[m] == d[m] != 0.0
    ensures var s := EmptiedAnd(d, prob, m);
      && MassOf(d, s) == Mass(d) - Mass(prob) + (if m < |d| then d[m] else 0.0)
      && CountOf(s) == NonEmpty(d) - NonEmpty(prob) + (if m < |d| then 1 else 0)
  {
    if d != [] {
      var n := |d| - 1;
      EmptiedMass(d[..n], prob[..n], m);
      assert EmptiedAnd(d, prob, m)[..n] == EmptiedAnd(d[..n], prob[..n], m);
    }
  }

  /** No set of non-empty bins with a mass below the tail budget has more bins than the loop has emptied. */
  lemma TrimIsOptimal(d: seq<real>, prob: seq<real>, tailProb: real, sel: seq<bool>)
    requires Distribution(d) && Trimmed(d, prob, tailProb)
    requires |sel| == |d| && (forall i :: 0 <= i < |d| && sel[i] ==> d[i] != 0.0)
    requires MassOf(d, sel) < tailProb
    ensures CountOf(sel) <= NonEmpty(d) - NonEmpty(prob)
  {
    var j := SomeBin(prob);
    var m := LeastBin(prob, j);
    var theta := prob[m];
    assert d[m] == theta >= 0.0;
    var k := EmptiedAnd(d, prob, m);
    EmptiedMass(d, prob, m);
    assert MassOf(d, k) >= tailProb;
    Exchange(d, sel, k, theta);
    LighterMeansFewer(d, sel, k, theta);
  }

  /** With no less excess, less mass means fewer bins. */
  lemma LighterMeansFewer(d: seq<real>, s: seq<bool>, k: seq<bool>, theta: real)
    requires |s| == |k| == |d| && theta >= 0.0
    requires Excess(d, s, theta) >= Excess(d, k, theta) && MassOf(d, s) < MassOf(d, k)
    ensures CountOf(s) < CountOf(k)
  {
    ExcessIs(d, s, theta);
    ExcessIs(d, k, theta);
    CountMonotone(theta, CountOf(s), CountOf(k));
  }

  /** What n bins of mass theta weigh. */
  function Weight(theta: real, n: nat): real {
    if n == 0 then 0.0 else Weight(theta, n - 1) + theta
  }

  lemma {:induction false} CountMonotone(theta: real, s: nat, k: nat)
    requires theta >= 0.0
    ensures s >= k ==> Weight(theta, s) >= Weight(theta, k)
  {
    if s > k {
      CountMonotone(theta, s - 1, k);
    }
  }

  lemma {:induction false} LeastBin(prob: seq<real>, j: nat) returns (m: nat)
    requires j < |prob| && prob[j] != 0.0
    ensures m < |prob| && prob[m] != 0.0 && forall i :: 0 <= i < |prob| && prob[i] != 0.0 ==> prob[m] <= prob[i]
  {
    ScanFindsLeast(prob, 0, prob[j] + 1.0, 0);
    m := Scan(prob, 0, prob[j] + 1.0, 0);
  }

  // ----- the interval

  /** The first bin of greatest mass. */
  ghost predicate IsMode(prob: seq<real>, mode: nat) {
    && mode < |prob| && prob[mode] > 0.0
    && (forall i :: 0 <= i < |prob| ==> prob[i] <= prob[mode])
    && (forall i :: 0 <= i < mode ==> prob[i] < prob[mode])
  }

  /** Every kept bin is less than tol away from the mode, and tol is the least such number. */
  ghost predicate Covers(prob: seq<real>, mode: nat, tol: int) {
    && (forall i :: 0 <= i < |prob| && prob[i] > 0.0 ==> AbsI(i - mode) < tol)
    && (exists i :: 0 <= i < |prob| && prob[i] > 0.0 && AbsI(i - mode) == tol - 1)
  }

  /** The mode of what is kept is a mode of the whole distribution. */
  lemma ModeIsKept(d: seq<real>, prob: seq<real>, tailProb: real, mode: nat)
    requires Distribution(d) && Trimmed(d, prob, tailProb) && IsMode(prob, mode)
    ensures forall i :: 0 <= i < |d| ==> d[i] <= d[mode]
  {
  }

  /** The bins less than tol away from the mode. */
  function Near(d: seq<real>, mode: nat, tol: int): (s: seq<bool>)
    ensures |s| == |d| && forall i :: 0 <= i < |d| ==> s[i] == (AbsI(i - mode) < tol)
  {
    seq(|d|, i requires 0 <= i < |d| => AbsI(i - mode) < tol)
  }

  lemma {:induction false} SelectedMass(d: seq<real>, prob: seq<real>, sel: seq<bool>)
    requires |prob| == |sel| == |d| && NonNegative(d)
    requires forall i :: 0 <= i < |d| ==> prob[i] == 0.0 || (prob[i] == d[i] && sel[i])
    ensures MassOf(d, sel) >= Mass(prob)
  {
    if d != [] {
      SelectedMass(d[..|d| - 1], prob[..|d| - 1], sel[..|d| - 1]);
    }
  }

  /** Of the whole distribution, more than the probability asked for lies within the tolerance of the mode. */
  lemma ToleranceIsSound(d: seq<real>, prob: seq<real>, probability: real, mode: nat, tol: int)
    requires Distribution(d) && Trimmed(d, prob, 1.0 - probability) && Covers(prob, mode, tol)
    requires 0.0 < probability < 1.0
    ensures MassOf(d, Near(d, mode, tol)) > probability
  {
    SelectedMass(d, prob, Near(d, mode, tol));
  }

  // ----- normalisation

  function Times(x: real, y: real): real {
    x * y
  }

  function Normalised(bins: seq<real>): (d: seq<real>)
    requires Mass(bins) > 0.0
    ensures |d| == |bins| && forall i :: 0 <= i < |d| ==> d[i] == Times(bins[i], 1.0 / Mass(bins))
  {
    seq(|bins|, i requires 0 <= i < |bins| => Times(bins[i], 1.0 / Mass(bins)))
  }

  lemma TimesAdds(x: real, y: real, norm: real)
    ensures Times(x + y, norm) == Times(x, norm) + Times(y, norm)
  {
  }

  lemma {:induction false} ScaledMass(bins: seq<real>, d: seq<real>, norm: real)
    requires |d| == |bins| && forall i :: 0 <= i < |d| ==> d[i] == Times(bins[i], norm)
    ensures Mass(d) == Times(Mass(bins), norm)
  {
    if bins == [] {
      assert Times(0.0, norm) == 0.0;
    } else {
      hide Times;
      var n := |bins| - 1;
      ScaledMass(bins[..n], d[..n], norm);
      TimesAdds(Mass(bins[..n]), bins[n], norm);
    }
  }

  lemma Inverse(m: real)
    requires m > 0.0
    ensures 1.0 / m > 0.0 && Times(m, 1.0 / m) == 1.0
  {
  }

  lemma TimesSign(x: real, y: real)
    requires x >= 0.0 && y > 0.0
    ensures Times(x, y) >= 0.0 && (Times(x, y) != 0.0 <==> x != 0.0)
  {
  }

  lemma {:induction false} SameBins(d: seq<real>, e: seq<real>)
    requires |d| == |e| && forall i :: 0 <= i < |d| ==> (d[i] != 0.0 <==> e[i] != 0.0)
    ensures NonEmpty(d) == NonEmpty(e)
  {
    if d != [] {
      SameBins(d[..|d| - 1], e[..|d| - 1]);
    }
  }

  lemma NormalisedIsDistribution(bins: seq<real>, tailProb: real)
    requires NonNegative(bins) && Mass(bins) > 0.0
    ensures Distribution(Normalised(bins))
    ensures CanEnd(Normalised(bins), tailProb) <==> CanEnd(bins, tailProb)
  {
    hide Times;
    var d, norm := Normalised(bins), 1.0 / Mass(bins);
    Inverse(Mass(bins));
    ScaledMass(bins, d, norm);
    forall i | 0 <= i < |bins|
      ensures d[i] >= 0.0 && (d[i] != 0.0 <==> bins[i] != 0.0)
    {
      TimesSign(bins[i], norm);
    }
    SameBins(d, bins);
  }

  // ----- calcTolerance

  method Sum(probDistrib: array<real>) returns (sum: real)
    ensures sum == Mass(probDistrib[..])
  {
    ghost var bins := probDistrib[..];
    sum := 0.0;
    for i := 0 to probDistrib.Length
      invariant sum == Mass(bins[..i])
    {
      assert bins[..i + 1][..i] == bins[..i];
      sum := sum + probDistrib[i];
    }
    assert bins[..probDistrib.Length] == bins;
  }

  method Normalise(probDistrib: array<real>)
    requires NonNegative(probDistrib[..]) && Mass(probDistrib[..]) > 0.0
    modifies probDistrib
    ensures probDistrib[..] == Normalised(old(probDistrib[..]))
  {
    ghost var bins := probDistrib[..];
    var sum := Sum(probDistrib);
    var norm := 1.0 / sum;
    for i := 0 to probDistrib.Length
      invariant forall k :: 0 <= k < i ==> probDistrib[k] == Times(bins[k], norm)
      invariant forall k :: i <= k < probDistrib.Length ==> probDistrib[k] == bins[k]
    {
      probDistrib[i] := Times(probDistrib[i], norm);
    }
    assert forall k :: 0 <= k < |bins| ==> probDistrib[..][k] == Normalised(bins)[k];
  }

  /** The scan of one pass. */
  method FindLeast(probDistrib: array<real>, start: nat) returns (minIdx: nat)
    requires start < probDistrib.Length
    ensures minIdx == Scan(probDistrib[..], 0, 1.0, start)
  {
    var minProb := 1.0;
    minIdx := start;
    for i := 0 to probDistrib.Length
      invariant minIdx < probDistrib.Length
      invariant Scan(probDistrib[..], i, minProb, minIdx) == Scan(probDistrib[..], 0, 1.0, start)
    {
      if probDistrib[i] != 0.0 && probDistrib[i] < minProb {
        minProb := probDistrib[i];
        minIdx := i;
      }
    }
  }

  /** The trim loop, in place. */
  method TrimTail(probDistrib: array<real>, tailProb: real)
    requires Distribution(probDistrib[..]) && CanEnd(probDistrib[..], tailProb)
    modifies probDistrib
    ensures Trimmed(old(probDistrib[..]), probDistrib[..], tailProb)
  {
    ghost var d := probDistrib[..];
    var accumProb := 0.0;
    var minIdx := 0;
    while accumProb < tailProb
      invariant minIdx < probDistrib.Length == |d|
      invariant accumProb < tailProb ==> Trimming(d, Trim(probDistrib[..], accumProb, minIdx))
      invariant accumProb < tailProb ==> Productive(d, Trim(probDistrib[..], accumProb, minIdx))
      invariant accumProb >= tailProb ==> Trimmed(d, probDistrib[..], tailProb)
      decreases if accumProb < tailProb then 1 + NonEmpty(probDistrib[..]) else 0
    {
      ghost var t := Trim(probDistrib[..], accumProb, minIdx);
      minIdx := FindLeast(probDistrib, minIdx);
      accumProb := accumProb + probDistrib[minIdx];
      if accumProb < tailProb {
        probDistrib[minIdx] := 0.0;
      }
      assert Trim(probDistrib[..], accumProb, minIdx) == Step(t, tailProb);
      StepProgress(d, t, tailProb);
      TrimmingStep(d, t, tailProb);
      if accumProb >= tailProb {
        TrimmedAtEnd(d, t, tailProb);
      }
    }
  }

  /** The mode, the bins around the kept ones, and the symmetric tolerance. */
  method Interval(probDistrib: array<real>) returns (tolerance: int, maxIdx: nat)
    requires NonNegative(probDistrib[..]) && Mass(probDistrib[..]) > 0.0
    ensures IsMode(probDistrib[..], maxIdx) && Covers(probDistrib[..], maxIdx, tolerance)
  {
    ghost var prob := probDistrib[..];
    ghost var some := SomeBin(prob);
    var len := probDistrib.Length;
    var maxVal := 0.0;
    maxIdx := 0;
    for i := 0 to len
      invariant maxIdx < len
      invariant maxVal > 0.0 ==> maxVal == probDistrib[maxIdx]
      invariant maxVal == 0.0 ==> maxIdx == 0
      invariant maxVal >= 0.0
      invariant forall k :: 0 <= k < i ==> probDistrib[k] <= maxVal
      invariant forall k :: 0 <= k < maxIdx ==> probDistrib[k] < maxVal
    {
      if probDistrib[i] > maxVal {
        maxVal := probDistrib[i];
        maxIdx := i;
      }
    }
    assert prob[some] <= maxVal;
    var first := 0;
    while first < len && !(probDistrib[first] > 0.0)
      invariant first <= maxIdx
      invariant forall k :: 0 <= k < first ==> prob[k] <= 0.0
    {
      first := first + 1;
    }
    var lowIdx := first - 1;
    var last := len - 1;
    while last >= 0 && !(probDistrib[last] > 0.0)
      invariant maxIdx <= last < len
      invariant forall k :: last < k < len ==> prob[k] <= 0.0
    {
      last := last - 1;
    }
    var hiIdx := last + 1;
    var hiTol := hiIdx - maxIdx;
    var lowTol := maxIdx - lowIdx;
    tolerance := hiTol;
    if lowTol > hiTol {
      tolerance := lowTol;
    }
    assert prob[first] > 0.0 && AbsI(first - maxIdx) == lowTol - 1;
    assert prob[last] > 0.0 && AbsI(last - maxIdx) == hiTol - 1;
  }

  /** `calcTolerance` on the bins read from the file; it needs exactly what its loop needs to end. */
  method CalcTolerance(probDistrib: array<real>, probability: real, tolerance: array<int>, idx: nat) returns (mode: nat)
    requires NonNegative(probDistrib[..]) && Mass(probDistrib[..]) > 0.0
    requires probDistrib.Length > 0 && CanEnd(probDistrib[..], 1.0 - probability)
    requires idx < tolerance.Length
    modifies probDistrib, tolerance
    ensures Trimmed(Normalised(old(probDistrib[..])), probDistrib[..], 1.0 - probability)
    ensures IsMode(probDistrib[..], mode) && Covers(probDistrib[..], mode, tolerance[idx])
    ensures forall k :: 0 <= k < tolerance.Length && k != idx ==> tolerance[k] == old(tolerance[k])
  {
    NormalisedIsDistribution(probDistrib[..], 1.0 - probability);
    Normalise(probDistrib);
    TrimTail(probDistrib, 1.0 - probability);
    var tol;
    tol, mode := Interval(probDistrib);
    tolerance[idx] := tol;
  }
}
