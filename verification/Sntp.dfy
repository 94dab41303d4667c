/** The vote of the SNTP servers on the whole-second error of the clock. */
module Sntp {

  /** Marks a server that returned no time. */
  const NO_TIME := 1000000

  // ----- what the vote means

  /** The differences reported, in server order. */
  function Votes(diffs: seq<int>): seq<int> {
    if diffs == [] then []
    else
      var front := Votes(diffs[..|diffs| - 1]);
      if diffs[|diffs| - 1] == NO_TIME then front else front + [diffs[|diffs| - 1]]
  }

  /** A difference of 1000000 is no report, any other is one. */
  lemma ReportsInOrder(diffs: seq<int>, x: int)
    ensures Votes(diffs + [x]) == if x == 1000000 then Votes(diffs) else Votes(diffs) + [x]
  {
    assert (diffs + [x])[..|diffs|] == diffs;
  }

  /** How many servers reported x. */
  function Count(votes: seq<int>, x: int): (n: nat)
    ensures n <= |votes|
    ensures n > 0 <==> x in votes
  {
    if votes == [] then 0
    else
      assert votes == votes[..|votes| - 1] + [votes[|votes| - 1]];
      Count(votes[..|votes| - 1], x) + if votes[|votes| - 1] == x then 1 else 0
  }

  /** The position of the first report of x. */
  function First(votes: seq<int>, x: int): (i: nat)
    requires x in votes
    ensures i < |votes| && votes[i] == x && x !in votes[..i]
  {
    var n := |votes| - 1;
    if x in votes[..n] then
      assert votes[..n][..First(votes[..n], x)] == votes[..First(votes[..n], x)];
      First(votes[..n], x)
    else n
  }

  /** A value reported most often, the earliest reported of those; 0 if nobody reports. */
  ghost predicate IsConsensus(votes: seq<int>, r: int) {
    if votes == [] then r == 0
    else
      && r in votes
      && (forall x :: x in votes ==> Count(votes, x) <= Count(votes, r))
      && (forall x :: x in votes && x != r && Count(votes, x) == Count(votes, r) ==> First(votes, r) < First(votes, x))
  }

  /** There is only one consensus. */
  lemma ConsensusIsUnique(votes: seq<int>, r: int, s: int)
    requires IsConsensus(votes, r) && IsConsensus(votes, s)
    ensures r == s
  {
    if votes != [] {
      assert Count(votes, r) <= Count(votes, s) <= Count(votes, r);
    }
  }

  lemma {:induction false} TwoCounts(votes: seq<int>, x: int, y: int)
    requires x != y
    ensures Count(votes, x) + Count(votes, y) <= |votes|
  {
    if votes != [] {
      TwoCounts(votes[..|votes| - 1], x, y);
    }
  }

  /** A value that more than half of the reporting servers agree on is the consensus, whatever the others say. */
  lemma MajorityDecides(votes: seq<int>, r: int, x: int)
    requires IsConsensus(votes, r) && 2 * Count(votes, x) > |votes|
    ensures r == x
  {
    if r != x {
      TwoCounts(votes, r, x);
    }
  }

  // ----- the histogram

  /** The distinct values in first-seen order. */
  function Distinct(votes: seq<int>): (d: seq<int>)
    ensures |d| <= |votes|
    ensures forall x :: x in d <==> x in votes
    ensures forall i, j :: 0 <= i < j < |d| ==> d[i] != d[j]
  {
    if votes == [] then []
    else
      assert votes == votes[..|votes| - 1] + [votes[|votes| - 1]];
      var d := Distinct(votes[..|votes| - 1]);
      if votes[|votes| - 1] in d then d else d + [votes[|votes| - 1]]
  }

  lemma {:induction false} DistinctInOrder(votes: seq<int>, i: nat, j: nat)
    requires i < j < |Distinct(votes)|
    ensures First(votes, Distinct(votes)[i]) < First(votes, Distinct(votes)[j])
  {
    var front := votes[..|votes| - 1];
    var d := Distinct(front);
    assert votes == front + [votes[|votes| - 1]];
    if j < |d| {
      DistinctInOrder(front, i, j);
    }
  }

  /** Occupied slots are a prefix with the distinct values and their exact counts; all others hold two zeros. */
  ghost predicate IsHistogram(diff: seq<int>, count: seq<int>, votes: seq<int>) {
    var d := Distinct(votes);
    && |d| <= |diff| == |count|
    && (forall k :: 0 <= k < |d| ==> diff[k] == d[k] && count[k] == Count(votes, d[k]))
    && (forall k :: |d| <= k < |diff| ==> diff[k] == 0 && count[k] == 0)
  }

  /** The counts of a histogram add up to the number of servers reporting. */
  lemma {:induction false} CountsAddUp(votes: seq<int>)
    ensures SumCounts(votes, Distinct(votes)) == |votes|
  {
    if votes != [] {
      var n := |votes| - 1;
      var front, x := votes[..n], votes[n];
      var d := Distinct(front);
      CountsAddUp(front);
      assert votes == front + [x];
      SumCountsExtend(front, x, d);
      if x !in d {
        assert (d + [x])[..|d|] == d;
        assert Count(front, x) == 0;
      }
    }
  }

  function SumCounts(votes: seq<int>, d: seq<int>): nat {
    if d == [] then 0 else SumCounts(votes, d[..|d| - 1]) + Count(votes, d[|d| - 1])
  }

  lemma {:induction false} SumCountsExtend(votes: seq<int>, x: int, d: seq<int>)
    requires forall i, j :: 0 <= i < j < |d| ==> d[i] != d[j]
    ensures SumCounts(votes + [x], d) == SumCounts(votes, d) + if x in d then 1 else 0
  {
    if d != [] {
      var front := d[..|d| - 1];
      assert d == front + [d[|d| - 1]];
      assert (votes + [x])[..|votes|] == votes;
      SumCountsExtend(votes, x, front);
    }
  }

  lemma HistogramNext(diff: seq<int>, count: seq<int>, votes: seq<int>, x: int, k: nat)
    requires IsHistogram(diff, count, votes) && k < |diff|
    requires var d := Distinct(votes);
      if x in d then k < |d| && d[k] == x else k == |d|
    ensures IsHistogram(diff[k := x], count[k := count[k] + 1], votes + [x])
  {
    var more := votes + [x];
    assert more[..|votes|] == votes;
    assert Count(votes, x) == 0 || x in Distinct(votes);
  }

  // ----- pps-sntp.cpp

  class Poll {
    const serverTimeDiff: array<int>
    var numServers: nat
    var consensusTimeError: int

    ghost predicate Valid()
      reads this
    {
      1 <= serverTimeDiff.Length && numServers <= serverTimeDiff.Length
    }

    constructor (maxServers: nat, numServers: nat)
      requires 1 <= maxServers && numServers <= maxServers
      ensures Valid() && fresh(serverTimeDiff)
    {
      serverTimeDiff := new int[maxServers](_ => NO_TIME);
      this.numServers := numServers;
      consensusTimeError := 0;
    }

    /** The distribution of the differences, built in arrays that start out all zero. */
    method Tally(diff: array<int>, count: array<int>) returns (reporting: nat)
      requires Valid() && diff != count && diff != serverTimeDiff && count != serverTimeDiff
      requires diff.Length == count.Length == serverTimeDiff.Length
      requires IsHistogram(diff[..], count[..], [])
      modifies diff, count
      ensures var votes := Votes(serverTimeDiff[..numServers]);
        IsHistogram(diff[..], count[..], votes) && reporting == |votes|
    {
      reporting := 0;
      for j := 0 to numServers
        invariant IsHistogram(diff[..], count[..], Votes(serverTimeDiff[..j]))
        invariant reporting == |Votes(serverTimeDiff[..j])| <= j
      {
        assert serverTimeDiff[..j + 1][..j] == serverTimeDiff[..j];
        if serverTimeDiff[j] != NO_TIME {
          AddVote(diff, count, serverTimeDiff[j], Votes(serverTimeDiff[..j]));
          reporting := reporting + 1;
        }
      }
    }

    /** One difference into the distribution; an empty slot already holds the value 0. */
    method AddVote(diff: array<int>, count: array<int>, x: int, ghost votes: seq<int>)
      requires Valid() && diff != count && diff.Length == count.Length == serverTimeDiff.Length
      requires IsHistogram(diff[..], count[..], votes) && |votes| < numServers
      modifies diff, count
      ensures IsHistogram(diff[..], count[..], votes + [x])
    {
      ghost var d := Distinct(votes);
      var k := 0;
      while k < numServers && x != diff[k]
        invariant k <= numServers && forall i :: 0 <= i < k ==> diff[i] != x
      {
        k := k + 1;
      }
      if k < numServers {
        assert diff[..][|d|] == diff[|d|];
        assert diff[..][k] == diff[k];
        HistogramNext(diff[..], count[..], votes, x, k);
        count[k] := count[k] + 1;
      } else {
        var m := 0;
        while m < numServers && count[m] != 0
          invariant m <= |d|
        {
          assert count[..][m] == count[m];
          m := m + 1;
        }
        HistogramNext(diff[..], count[..], votes, x, m);
        diff[m] := x;
        count[m] := 1;
      }
    }

    /** The first slot with the most hits. */
    method MostHits(count: array<int>) returns (maxHitsIndex: nat)
      requires Valid() && count.Length == serverTimeDiff.Length
      requires forall c :: c in count[..] ==> c >= 0
      ensures maxHitsIndex < count.Length
      ensures forall k :: 0 <= k < numServers ==> count[..][k] <= count[..][maxHitsIndex]
      ensures forall k :: 0 <= k < maxHitsIndex ==> count[..][k] < count[..][maxHitsIndex]
    {
      var maxHits := 0;
      maxHitsIndex := 0;
      assert forall k :: 0 <= k < count.Length ==> count[k] in count[..];
      for j := 0 to numServers
        invariant maxHitsIndex < count.Length
        invariant maxHits >= 0 && (maxHits == 0 ==> maxHitsIndex == 0)
        invariant maxHits > 0 ==> maxHits == count[maxHitsIndex]
        invariant forall k :: 0 <= k < j ==> count[k] <= maxHits
        invariant forall k :: 0 <= k < maxHitsIndex ==> count[k] < maxHits
      {
        if count[j] > maxHits {
          maxHits := count[j];
          maxHitsIndex := j;
        }
      }
    }

    /** `getTimeConsensusAndCount`. */
    method GetTimeConsensusAndCount() returns (reporting: nat)
      requires Valid()
      modifies serverTimeDiff, this`consensusTimeError
      ensures var votes := Votes(old(serverTimeDiff[..numServers]));
        IsConsensus(votes, consensusTimeError) && reporting == |votes|
      ensures forall i :: 0 <= i < serverTimeDiff.Length ==> serverTimeDiff[i] == NO_TIME
    {
      ghost var votes := Votes(serverTimeDiff[..numServers]);
      var diff := new int[serverTimeDiff.Length](_ => 0);
      var count := new int[serverTimeDiff.Length](_ => 0);
      reporting := Tally(diff, count);
      VotesBound(serverTimeDiff[..numServers]);
      var maxHitsIndex := MostHits(count);
      ModeIsConsensus(diff[..], count[..], votes, numServers, maxHitsIndex);
      consensusTimeError := diff[maxHitsIndex];
      for i := 0 to serverTimeDiff.Length
        invariant IsConsensus(votes, consensusTimeError)
        invariant forall k :: 0 <= k < i ==> serverTimeDiff[k] == NO_TIME
      {
        serverTimeDiff[i] := NO_TIME;
      }
    }
  }

  lemma {:induction false} VotesBound(diffs: seq<int>)
    ensures |Votes(diffs)| <= |diffs|
  {
    if diffs != [] {
      VotesBound(diffs[..|diffs| - 1]);
    }
  }

  /** The first distinct value with the most votes is the consensus. */
  lemma SlotIsConsensus(votes: seq<int>, m: nat)
    requires var d := Distinct(votes);
      m < |d|
      && (forall k :: 0 <= k < |d| ==> Count(votes, d[k]) <= Count(votes, d[m]))
      && (forall k :: 0 <= k < m ==> Count(votes, d[k]) < Count(votes, d[m]))
    ensures IsConsensus(votes, Distinct(votes)[m])
  {
    var d := Distinct(votes);
    forall x | x in votes && x != d[m] && Count(votes, x) == Count(votes, d[m])
      ensures First(votes, d[m]) < First(votes, x)
    {
      var k :| 0 <= k < |d| && d[k] == x;
      DistinctInOrder(votes, m, k);
    }
  }

  lemma ModeIsConsensus(diff: seq<int>, count: seq<int>, votes: seq<int>, n: nat, m: nat)
    requires IsHistogram(diff, count, votes) && |votes| <= n <= |diff| && m < |diff|
    requires forall k :: 0 <= k < n ==> count[k] <= count[m]
    requires forall k :: 0 <= k < m ==> count[k] < count[m]
    ensures IsConsensus(votes, diff[m])
  {
    var d := Distinct(votes);
    if votes != [] {
      assert votes[0] in d;
      assert count[0] == Count(votes, d[0]) >= 1;
      assert m < |d|;
      SlotIsConsensus(votes, m);
    }
  }
}
