/** Whole-second time over the serial port: a difference is applied only if two readings in a row agree. */
module SerialTime {
  import opened Constants

  /** What one thread run reads: nothing usable, a system error, or a difference in seconds. */
  datatype Reading = NoMessage | SystemError | Valid(dif: int)

  /** The thread's result: 1 if it settled a difference, 0 if not, -1 on a system error. */
  type ThreadResult = rv: int | -1 <= rv <= 1

  /** The locals of pps-serial.cpp: `lastSerialTimeDif`, `serverTimeDiff[0]`, both read flags and the thread's result. */
  datatype Link = Link(last: int, diff: int, threadReads: bool, doRead: bool, rv: ThreadResult)

  const InitialLink := Link(0, 0, false, false, 0)

  /** `doSerialTimeCheck`, the body of the query thread. */
  function Check(l: Link, r: Reading): Link {
    match r
    case Valid(dif) =>
      if dif == 0 then l.(threadReads := false, diff := 0, last := 0, rv := 1)
      else if l.last == 0 then l.(diff := 0, last := dif, threadReads := true, rv := 0)
      else if dif == l.last then l.(threadReads := false, diff := dif, last := 0, rv := 1)
      else l.(threadReads := false, diff := 0, last := 0, rv := 0)
    case NoMessage => l.(threadReads := true, rv := 0)
    case SystemError => l.(rv := -1)
  }

  /** The hand-over at the start of `makeSerialTimeQuery`, and whether a thread is to be started. */
  function HandOver(l: Link, seqNum: nat): Link {
    l.(rv := 0, diff := 0, doRead := l.threadReads || seqNum == 1 || seqNum % CHECK_TIME_SERIAL == 0)
  }

  // ----- the protocol, with the environment free to lose pulses and restart at any time

  /** What happens to the link: a query that runs its thread or fails to, a PPS step that applies, a restart. */
  datatype Event = Query(seqNum: nat, reading: Reading, threadOk: bool) | Apply | Restart

  /** Two readings that confirm each other, by their positions. */
  datatype Pair = Pair(first: nat, second: nat, dif: int)

  /** A correction applied, and the pair that it came from. */
  datatype Applied = Applied(sec: int, pair: int)

  /**
   * The link, the pending `serialTimeError`, and what has been observed: all readings, the position of an
   * unconfirmed difference, all confirmed pairs, the number of pairs handed over, all corrections applied.
   */
  datatype Trace = Trace(link: Link, pending: int, readings: seq<Reading>, lastAt: nat,
                         pairs: seq<Pair>, handed: nat, applied: seq<Applied>)

  const Begin := Trace(InitialLink, 0, [], 0, [], 0, [])

  function RunThread(t: Trace, r: Reading): Trace {
    var here := |t.readings|;
    t.(link := Check(t.link, r),
       readings := t.readings + [r],
       lastAt := if r.Valid? && t.link.last == 0 then here else t.lastAt,
       pairs := if r.Valid? && r.dif != 0 && r.dif == t.link.last then t.pairs + [Pair(t.lastAt, here, r.dif)] else t.pairs)
  }

  function TakeOver(t: Trace, seqNum: nat): Trace {
    t.(link := HandOver(t.link, seqNum), pending := t.link.diff, handed := |t.pairs|)
  }

  function Step(t: Trace, e: Event): Trace {
    match e
    case Query(seqNum, reading, threadOk) =>
      if t.link.rv == -1 then t
      else
        var u := TakeOver(t, seqNum);
        if u.link.doRead && threadOk then RunThread(u, reading) else u
    case Apply =>
      if t.pending == 0 then t
      else t.(pending := 0, applied := t.applied + [Applied(t.pending, t.handed - 1)])
    case Restart => t.(pending := 0)
  }

  function Run(events: seq<Event>): Trace {
    if events == [] then Begin else Step(Run(events[..|events| - 1]), events[|events| - 1])
  }

  /** The readings at both positions are valid and equal, and none between them is valid. */
  ghost predicate Confirmed(readings: seq<Reading>, p: Pair) {
    && p.first < p.second < |readings|
    && p.dif != 0
    && readings[p.first] == Valid(p.dif) && readings[p.second] == Valid(p.dif)
    && forall k :: p.first < k < p.second ==> !readings[k].Valid?
  }

  ghost predicate PairsConfirmed(readings: seq<Reading>, pairs: seq<Pair>) {
    && (forall k :: 0 <= k < |pairs| ==> Confirmed(readings, pairs[k]))
    && (forall j, k :: 0 <= j < k < |pairs| ==> pairs[j].second < pairs[k].first)
  }

  /** Each correction applied is the value of its pair, and no pair is applied twice. */
  ghost predicate AppliedOnce(applied: seq<Applied>, pairs: seq<Pair>) {
    && (forall k :: 0 <= k < |applied| ==>
          0 <= applied[k].pair < |pairs| && applied[k].sec == pairs[applied[k].pair].dif)
    && (forall j, k :: 0 <= j < k < |applied| ==> applied[j].pair < applied[k].pair)
  }

  /** All corrections applied so far come from pairs before the n-th. */
  ghost predicate AppliedBefore(applied: seq<Applied>, n: int) {
    forall k :: 0 <= k < |applied| ==> applied[k].pair < n
  }

  /** An unconfirmed difference is the latest valid reading and belongs to no pair. */
  ghost predicate LastTracks(t: Trace) {
    t.link.last != 0 ==>
      && t.lastAt < |t.readings| && t.readings[t.lastAt] == Valid(t.link.last)
      && (forall k :: t.lastAt < k < |t.readings| ==> !t.readings[k].Valid?)
      && (forall k :: 0 <= k < |t.pairs| ==> t.pairs[k].second < t.lastAt)
  }

  /** A confirmed difference is in flight in one place at a time, and its pair is newer than all applied ones. */
  ghost predicate FlowTracks(t: Trace) {
    && t.handed <= |t.pairs|
    && (t.link.diff != 0 ==> t.link.rv == 1 && t.handed < |t.pairs| && t.pairs[|t.pairs| - 1].dif == t.link.diff)
    && (t.link.diff == 0 ==> t.handed == |t.pairs|)
    && (t.pending != 0 ==> t.handed > 0 && t.pairs[t.handed - 1].dif == t.pending)
    && AppliedBefore(t.applied, if t.pending != 0 then t.handed - 1 else t.handed)
  }

  ghost predicate Inv(t: Trace) {
    PairsConfirmed(t.readings, t.pairs) && AppliedOnce(t.applied, t.pairs) && LastTracks(t) && FlowTracks(t)
  }

  lemma PairsKept(readings: seq<Reading>, pairs: seq<Pair>, r: Reading)
    requires PairsConfirmed(readings, pairs)
    ensures PairsConfirmed(readings + [r], pairs)
  {
    forall k | 0 <= k < |pairs|
      ensures Confirmed(readings + [r], pairs[k])
    {
      assert Confirmed(readings, pairs[k]);
    }
  }

  lemma PairsExtend(readings: seq<Reading>, pairs: seq<Pair>, p: Pair)
    requires PairsConfirmed(readings, pairs) && Confirmed(readings, p)
    requires forall k :: 0 <= k < |pairs| ==> pairs[k].second < p.first
    ensures PairsConfirmed(readings, pairs + [p])
  {
  }

  lemma RunThreadInv(t: Trace, r: Reading)
    requires Inv(t) && t.link.diff == 0
    ensures Inv(RunThread(t, r))
  {
    PairsKept(t.readings, t.pairs, r);
    if r.Valid? && r.dif != 0 && r.dif == t.link.last {
      PairsExtend(t.readings + [r], t.pairs, Pair(t.lastAt, |t.readings|, r.dif));
    }
  }

  lemma TakeOverInv(t: Trace, seqNum: nat)
    requires Inv(t)
    ensures Inv(TakeOver(t, seqNum)) && TakeOver(t, seqNum).link.diff == 0
  {
  }

  lemma AppliedExtend(applied: seq<Applied>, pairs: seq<Pair>, a: Applied)
    requires AppliedOnce(applied, pairs) && AppliedBefore(applied, a.pair)
    requires 0 <= a.pair < |pairs| && a.sec == pairs[a.pair].dif
    ensures AppliedOnce(applied + [a], pairs) && AppliedBefore(applied + [a], a.pair + 1)
  {
  }

  lemma ApplyInv(t: Trace)
    requires Inv(t)
    ensures Inv(Step(t, Apply))
  {
    if t.pending != 0 {
      AppliedExtend(t.applied, t.pairs, Applied(t.pending, t.handed - 1));
    }
  }

  lemma StepInv(t: Trace, e: Event)
    requires Inv(t)
    ensures Inv(Step(t, e))
  {
    match e
    case Query(seqNum, reading, threadOk) =>
      TakeOverInv(t, seqNum);
      RunThreadInv(TakeOver(t, seqNum), reading);
    case Apply => ApplyInv(t);
    case Restart =>
  }

  /**
   * For every run, with pulses lost and restarts anywhere: every correction applied is the value of a pair
   * of equal valid readings with only invalid ones between them; the pairs do not overlap; and no pair is
   * applied twice.
   */
  lemma {:induction false} AppliedOnlyIfConfirmed(events: seq<Event>)
    ensures var t := Run(events);
      && Inv(t)
      && PairsConfirmed(t.readings, t.pairs)
      && AppliedOnce(t.applied, t.pairs)
  {
    if events != [] {
      AppliedOnlyIfConfirmed(events[..|events| - 1]);
      StepInv(Run(events[..|events| - 1]), events[|events| - 1]);
    }
  }

  /** A confirmed difference reaches the clock if the PPS step after the hand-over is not lost. */
  lemma ConfirmedIsApplied(events: seq<Event>, seqNum: nat, reading: Reading, threadOk: bool)
    requires Run(events).link.diff != 0
    ensures var t := Run(events);
      var u := Step(Step(t, Query(seqNum, reading, threadOk)), Apply);
      && |t.pairs| > 0 && t.pairs[|t.pairs| - 1].dif == t.link.diff
      && u.applied == t.applied + [Applied(t.link.diff, |t.pairs| - 1)]
  {
    AppliedOnlyIfConfirmed(events);
    HandOverThenApply(Run(events), seqNum, reading, threadOk);
  }

  lemma HandOverThenApply(t: Trace, seqNum: nat, reading: Reading, threadOk: bool)
    requires t.link.diff != 0 && t.link.rv == 1
    ensures Step(Step(t, Query(seqNum, reading, threadOk)), Apply).applied == t.applied + [Applied(t.link.diff, |t.pairs| - 1)]
  {
  }

  // ----- when the port is read

  /** The difference that some readings leave unconfirmed, or 0. */
  ghost function Unconfirmed(readings: seq<Reading>): int {
    if readings == [] then 0
    else
      var before := Unconfirmed(readings[..|readings| - 1]);
      match readings[|readings| - 1]
      case Valid(dif) => if before == 0 then dif else 0
      case NoMessage => before
      case SystemError => before
  }

  /** The last reading calls for another one at once: it got no message, or a difference that is yet to be confirmed. */
  ghost predicate AsksAgain(readings: seq<Reading>) {
    readings != [] &&
    match readings[|readings| - 1]
    case Valid(_) => Unconfirmed(readings) != 0
    case NoMessage => true
    case SystemError => false
  }

  ghost predicate Failed(readings: seq<Reading>) {
    readings != [] && readings[|readings| - 1] == SystemError
  }

  /** The link is a function of the readings. */
  ghost predicate Scheduled(t: Trace) {
    && t.link.last == Unconfirmed(t.readings)
    && (t.link.rv == -1 <==> Failed(t.readings))
    && (t.link.rv != -1 ==> (t.link.threadReads <==> AsksAgain(t.readings)))
  }

  lemma RunThreadScheduled(t: Trace, r: Reading)
    requires t.link.last == Unconfirmed(t.readings) && t.link.rv == 0
    ensures Scheduled(RunThread(t, r))
  {
    assert (t.readings + [r])[..|t.readings|] == t.readings;
  }

  lemma {:induction false} RunIsScheduled(events: seq<Event>)
    ensures Scheduled(Run(events))
  {
    if events != [] {
      var t := Run(events[..|events| - 1]);
      RunIsScheduled(events[..|events| - 1]);
      match events[|events| - 1]
      case Query(seqNum, reading, threadOk) =>
        if t.link.rv != -1 {
          RunThreadScheduled(TakeOver(t, seqNum), reading);
        }
      case Apply =>
      case Restart =>
    }
  }

  /**
   * After every run, a query reads the port exactly if no system error has ended the link, the thread starts, and the
   * last reading asks for another one, or this is the first pulse or one of every six hundred. The reading confirms a
   * difference exactly if it equals the one left unconfirmed.
   */
  lemma ReadsOnSchedule(events: seq<Event>, seqNum: nat, reading: Reading, threadOk: bool)
    ensures var t := Run(events);
      var u := Step(t, Query(seqNum, reading, threadOk));
      var due := !Failed(t.readings) && threadOk && (AsksAgain(t.readings) || seqNum == 1 || seqNum % 600 == 0);
      && u.readings == (if due then t.readings + [reading] else t.readings)
      && (|u.pairs| > |t.pairs| <==> due && Unconfirmed(t.readings) != 0 && reading == Valid(Unconfirmed(t.readings)))
  {
    RunIsScheduled(events);
  }
}
