/** Every pass of the whole loop is a pass of the controller alone and a few events of the serial protocol alone. */
module LoopRuns {
  import opened Wrappers
  import opened Configuration
  import opened Constants
  import opened Limiter
  import opened Servo
  import opened SystemClock
  import opened MainLoop
  import C = ClockRuns
  import SerialTime
  import R = ServoRuns

  /** The interrupt time that `makeTimeCorrection` passes to the controller, if it gets that far. */
  function CorrectedTime(c: Client, cfg: Config, p: Pulse): Option<int> {
    var fixed := SetSeconds(c.clock, cfg, p);
    var d := c.(clock := fixed.clock);
    if !fixed.ok || (Reports(d.clock, d.servo.seqNum, d.servo.slew.avg) && !p.fractionOk) then None
    else Some(UsedTime(d, p))
  }

  function Counted(c: Client, e: Pass): Client {
    c.(clock := Increase(c.clock, c.servo.seqNum, e.mono, e.now))
  }

  /** The interrupt time that the controller gets to see in a pass, if any. */
  function InterruptTime(c: Client, cfg: Config, e: Pass): Option<int> {
    if e.pulse.None? then None else CorrectedTime(Counted(c, e), cfg, e.pulse.value)
  }

  /** The delay that a calibration would measure: none if it is disabled, fails or comes after a fatal serial query. */
  function MeasuredDelay(c: Client, cfg: Config, e: Pass): Option<int> {
    if cfg.doCalibration && (cfg.doSerialsettime ==> QuerySerial(c, e).1) && e.calibration.setOk
    then e.calibration.delay else None
  }

  /** What a pass of the loop lets its controller see. */
  function SecondOf(c: Client, cfg: Config, e: Pass): R.Second
    requires c.servo.Wf()
  {
    var voted := TakeVote(c, cfg, e);
    R.Second(InterruptTime(voted, cfg, e), MeasuredDelay(ReadPPS(voted, cfg, e).client, cfg, e))
  }

  lemma CorrectWithServo(c: Client, p: Pulse, servo: Servo)
    ensures var o := CorrectWith(c, p, servo);
      && (o.ok <==> !(Reports(c.clock, c.servo.seqNum, c.servo.slew.avg) && !p.fractionOk))
      && o.client.servo == if o.ok then servo else c.servo
  {
  }

  lemma CorrectTimeServo(c: Client, p: Pulse)
    requires c.servo.Wf()
    ensures var o := CorrectTime(c, p);
      && (o.ok <==> !(Reports(c.clock, c.servo.seqNum, c.servo.slew.avg) && !p.fractionOk))
      && o.client.servo == if o.ok then Tick(c.servo, UsedTime(c, p) - c.servo.latency.sysDelay) else c.servo
  {
    hide Tick;
    CorrectWithServo(c, p, Tick(c.servo, UsedTime(c, p) - c.servo.latency.sysDelay));
  }

  lemma MakeTimeCorrectionServo(c: Client, cfg: Config, p: Pulse)
    requires c.servo.Wf()
    ensures var o := MakeTimeCorrection(c, cfg, p);
      var t := CorrectedTime(c, cfg, p);
      && (o.ok <==> t.Some?)
      && o.client.servo == if t.Some? then Tick(c.servo, t.value - c.servo.latency.sysDelay) else c.servo
  {
    hide Tick;
    CorrectTimeServo(c.(clock := SetSeconds(c.clock, cfg, p).clock), p);
  }

  lemma ReadPPSServo(c: Client, cfg: Config, e: Pass)
    requires c.servo.Wf()
    ensures var o := ReadPPS(c, cfg, e);
      var t := InterruptTime(c, cfg, e);
      && (t.None? ==> o.client.servo == c.servo && !RestartsIn(c, cfg, e) && (o.ok ==> e.pulse.None?))
      && (t.Some? ==> o.ok && o.client.servo == Restarted(Tick(c.servo, t.value - c.servo.latency.sysDelay)) && e.pulse.Some?
                      && (RestartsIn(c, cfg, e) <==> NeedsRestart(Tick(c.servo, t.value - c.servo.latency.sysDelay))))
  {
    hide Tick;
    if e.pulse.Some? {
      MakeTimeCorrectionServo(Counted(c, e), cfg, e.pulse.value);
    }
  }

  lemma FinishServo(c: Client, cfg: Config, e: Pass)
    requires c.servo.Wf()
    ensures Finish(c, cfg, e).0.servo ==
      if e.pulse.Some? then R.Calibrate(c.servo, MeasuredDelay(c, cfg, e)) else c.servo
  {
  }

  /** The loop drives the controller exactly as a pass of `ServoRuns`. */
  lemma StepIsServoPass(c: Client, cfg: Config, e: Pass, h: History)
    requires c.servo.Wf()
    ensures Step(c, cfg, e).client.servo == R.Pass(R.Traced(c.servo, h), SecondOf(c, cfg, e)).s
  {
    hide Tick;
    var voted := TakeVote(c, cfg, e);
    ReadPPSServo(voted, cfg, e);
    FinishServo(ReadPPS(voted, cfg, e).client, cfg, e);
  }

  /** The passes of the controller that a run of the loop consists of. */
  function Seconds(w: C.World, events: seq<C.Event>): seq<R.Second>
    requires w.client.servo.Wf()
    decreases |events|
  {
    if events == [] || !w.ok then []
    else [SecondOf(w.client, w.cfg, C.Timed(w, events[0]))] +
         Seconds(C.Advance(w, events[0]), events[1..])
  }

  lemma {:induction false} RunIsServoRun(w: C.World, events: seq<C.Event>, h: History)
    requires w.client.servo.Wf()
    ensures C.Run(w, events).client.servo == R.RunFrom(R.Traced(w.client.servo, h), Seconds(w, events)).s
    decreases |events|
  {
    if events == [] {
    } else if !w.ok {
      C.StoppedRun(w, events);
    } else {
      var e := C.Timed(w, events[0]);
      StepIsServoPass(w.client, w.cfg, e, h);
      var t := R.Pass(R.Traced(w.client.servo, h), SecondOf(w.client, w.cfg, e));
      RunIsServoRun(C.Advance(w, events[0]), events[1..], t.h);
      assert Seconds(w, events)[1..] == Seconds(C.Advance(w, events[0]), events[1..]);
    }
  }

  /** So every run of the loop leaves its controller in a state that a run of the controller reaches. */
  lemma LoopReachesServoStates(abs: AbsOverload, file: File, wall: int, mono: real, events: seq<C.Event>)
    ensures var w := C.Started(abs, file, wall, mono);
      exists seconds :: C.Run(w, events).client.servo == R.Run(abs, seconds).s
  {
    var w := C.Started(abs, file, wall, mono);
    RunIsServoRun(w, events, Start);
    assert C.Run(w, events).client.servo == R.Run(abs, Seconds(w, events)).s;
  }

  /**
   * And any stretch of the loop that follows such a run is, for its controller, a stretch that follows a run from
   * program start, with the passes of `Seconds`.
   */
  lemma LoopStretchIsServoStretch(abs: AbsOverload, file: File, wall: int, mono: real,
                                  before: seq<C.Event>, events: seq<C.Event>)
    ensures var w := C.Started(abs, file, wall, mono);
      var v := C.Run(w, before);
      var t := R.Run(abs, Seconds(w, before));
      && v.client.servo == t.s
      && C.Run(v, events).client.servo == R.RunFrom(t, Seconds(v, events)).s
  {
    var w := C.Started(abs, file, wall, mono);
    RunIsServoRun(w, before, Start);
    RunIsServoRun(C.Run(w, before), events, R.Run(abs, Seconds(w, before)).h);
  }

  // ----- serial time

  /** The events of the serial protocol in one pass of the loop. */
  function LinkEvents(c: Client, cfg: Config, e: Pass): seq<SerialTime.Event>
    requires c.servo.Wf()
  {
    var voted := TakeVote(c, cfg, e);
    ApplyEvents(voted, cfg, e) + QueryEvents(voted, cfg, e)
  }

  function ApplyEvents(c: Client, cfg: Config, e: Pass): seq<SerialTime.Event> {
    if SetsSerial(c, cfg, e) then [SerialTime.Apply] else []
  }

  function QueryEvents(c: Client, cfg: Config, e: Pass): seq<SerialTime.Event>
    requires c.servo.Wf()
  {
    var o := ReadPPS(c, cfg, e);
    if o.ok && RestartsIn(c, cfg, e) then [SerialTime.Restart]
    else if o.ok && cfg.doSerialsettime then [SerialTime.Query(o.client.servo.seqNum, e.reading, e.threadOk)]
    else []
  }

  /** Whether `setClockToSerialTime` writes to the driver in this pass. */
  predicate SetsSerial(c: Client, cfg: Config, e: Pass) {
    e.pulse.Some? && WantsSerial(c.clock, cfg) && e.pulse.value.serialOk
      && (WantsNTP(c.clock, cfg) ==> e.pulse.value.ntpOk)
  }

  ghost predicate Follows(c: Client, t: SerialTime.Trace) {
    c.link == t.link && c.clock.serialTimeError == t.pending
  }

  function Fold(t: SerialTime.Trace, events: seq<SerialTime.Event>): SerialTime.Trace
    decreases |events|
  {
    if events == [] then t else Fold(SerialTime.Step(t, events[0]), events[1..])
  }

  lemma FoldOne(t: SerialTime.Trace, y: seq<SerialTime.Event>)
    requires |y| <= 1
    ensures Fold(t, y) == if y == [] then t else SerialTime.Step(t, y[0])
  {
    if y != [] {
      assert Fold(t, y) == Fold(SerialTime.Step(t, y[0]), y[1..]);
    }
  }

  lemma FoldTwo(t: SerialTime.Trace, x: seq<SerialTime.Event>, y: seq<SerialTime.Event>)
    requires |x| <= 1 && |y| <= 1
    ensures var u := if x == [] then t else SerialTime.Step(t, x[0]);
      Fold(t, x + y) == if y == [] then u else SerialTime.Step(u, y[0])
  {
    FoldOne(t, y);
    if x == [] {
      assert x + y == y;
    } else {
      assert (x + y)[0] == x[0] && (x + y)[1..] == y;
      FoldOne(SerialTime.Step(t, x[0]), y);
    }
  }

  lemma SetSecondsLink(c: Client, cfg: Config, p: Pulse)
    ensures var r := SetSeconds(c.clock, cfg, p);
      && r.clock.serialTimeError == (if SerialSeconds(c.clock, cfg, p) != 0 then 0 else c.clock.serialTimeError)
      && SecondsInjected(r.injected) == VotedSeconds(c.clock, cfg, p) + SerialSeconds(c.clock, cfg, p)
      && |r.injected| <= 2
  {
    var ntp := SetNTP(c.clock, cfg, p);
    C.InjectedSeconds(ntp.injected, SetSerial(ntp.clock, cfg, p).injected);
  }

  lemma CorrectWithLink(c: Client, p: Pulse, servo: Servo)
    ensures var o := CorrectWith(c, p, servo);
      && o.client.link == c.link && o.client.clock.serialTimeError == c.clock.serialTimeError
      && |o.injected| <= 1 && SecondsInjected(o.injected) == 0
  {
  }

  lemma MakeTimeCorrectionLink(c: Client, cfg: Config, p: Pulse)
    requires c.servo.Wf()
    ensures var o := MakeTimeCorrection(c, cfg, p);
      && o.client.link == c.link
      && o.client.clock.serialTimeError == (if SerialSeconds(c.clock, cfg, p) != 0 then 0 else c.clock.serialTimeError)
      && SecondsInjected(o.injected) == VotedSeconds(c.clock, cfg, p) + SerialSeconds(c.clock, cfg, p)
  {
    hide Tick;
    SetSecondsLink(c, cfg, p);
    var r := SetSeconds(c.clock, cfg, p);
    var d := c.(clock := r.clock);
    var servo := Tick(c.servo, UsedTime(d, p) - c.servo.latency.sysDelay);
    CorrectWithLink(d, p, servo);
    C.InjectedSeconds(r.injected, CorrectWith(d, p, servo).injected);
  }

  // ----- votes

  /** The vote to be written in a pass: the one that it brings, if SNTP is enabled, else the one kept from before. */
  function PendingVote(kept: int, cfg: Config, e: Pass): int {
    if cfg.doNTPsettime && e.consensus.Some? then e.consensus.value else kept
  }

  /** It is written as soon as a pulse is read with SNTP enabled, unless the write fails. */
  predicate WritesVote(kept: int, cfg: Config, e: Pass) {
    e.pulse.Some? && cfg.doNTPsettime && PendingVote(kept, cfg, e) != 0 && e.pulse.value.ntpOk
  }

  /** What the vote puts into the clock in a pass. */
  function VoteWritten(kept: int, cfg: Config, e: Pass): int {
    if WritesVote(kept, cfg, e) then PendingVote(kept, cfg, e) else 0
  }

  /** The vote kept for the next pass: a restart forgets it. */
  function KeptVote(kept: int, cfg: Config, e: Pass, restarts: bool): int {
    if restarts || WritesVote(kept, cfg, e) then 0 else PendingVote(kept, cfg, e)
  }

  /** The whole seconds written to the driver, write by write. */
  function WholeWrites(injected: seq<Injection>): seq<int> {
    if injected == [] then []
    else (if injected[0].WholeSeconds? then [injected[0].sec] else []) + WholeWrites(injected[1..])
  }

  lemma {:induction false} WholeWritesAppend(x: seq<Injection>, y: seq<Injection>)
    ensures WholeWrites(x + y) == WholeWrites(x) + WholeWrites(y)
  {
    if x == [] {
      assert x + y == y;
    } else {
      assert (x + y)[0] == x[0] && (x + y)[1..] == x[1..] + y;
      WholeWritesAppend(x[1..], y);
    }
  }

  /** The whole-second writes of a step: the vote first, then the serial correction. */
  lemma SetSecondsWrites(c: Clock, cfg: Config, p: Pulse)
    ensures var r := SetSeconds(c, cfg, p);
      var votes, corrects := cfg.doNTPsettime && c.consensusTimeError != 0, cfg.doSerialsettime && c.serialTimeError != 0;
      && WholeWrites(r.injected) ==
           (if votes && p.ntpOk then [c.consensusTimeError] else []) +
           (if corrects && p.serialOk && (votes ==> p.ntpOk) then [c.serialTimeError] else [])
      && r.clock.consensusTimeError == (if votes && p.ntpOk then 0 else c.consensusTimeError)
      && (r.ok <==> (votes ==> p.ntpOk) && (corrects ==> p.serialOk))
  {
    var ntp := SetNTP(c, cfg, p);
    WholeWritesAppend(ntp.injected, SetSerial(ntp.clock, cfg, p).injected);
  }

  lemma MakeTimeCorrectionWrites(c: Client, cfg: Config, p: Pulse)
    requires c.servo.Wf()
    ensures var o, r := MakeTimeCorrection(c, cfg, p), SetSeconds(c.clock, cfg, p);
      && WholeWrites(o.injected) == WholeWrites(r.injected)
      && o.client.clock.consensusTimeError == r.clock.consensusTimeError
      && (o.ok ==> r.ok && o.client.servo.seqNum == c.servo.seqNum + 1)
  {
    hide Tick;
    var r := SetSeconds(c.clock, cfg, p);
    var d := c.(clock := r.clock);
    var rawError := UsedTime(d, p) - c.servo.latency.sysDelay;
    C.TickCounts(c.servo, rawError);
    WholeWritesAppend(r.injected, CorrectWith(d, p, Tick(c.servo, rawError)).injected);
  }

  /** What a pass writes for the SNTP servers and for the serial link, and which vote it keeps. */
  lemma StepWrites(c: Client, cfg: Config, e: Pass)
    requires c.servo.Wf()
    ensures var o, kept := Step(c, cfg, e), c.clock.consensusTimeError;
      var votes := cfg.doNTPsettime && PendingVote(kept, cfg, e) != 0;
      var corrects := e.pulse.Some? && cfg.doSerialsettime && c.clock.serialTimeError != 0;
      && WholeWrites(o.injected) ==
           (if WritesVote(kept, cfg, e) then [PendingVote(kept, cfg, e)] else []) +
           (if corrects && e.pulse.value.serialOk && (votes ==> e.pulse.value.ntpOk) then [c.clock.serialTimeError] else [])
      && (o.ok ==>
            o.client.clock.consensusTimeError == KeptVote(kept, cfg, e, e.pulse.Some? && o.client.servo.seqNum == 0))
      && (o.ok && e.pulse.Some? && votes ==> WritesVote(kept, cfg, e))
  {
    hide MakeTimeCorrection;
    var voted := TakeVote(c, cfg, e);
    var counted := Counted(voted, e);
    if e.pulse.Some? {
      SetSecondsWrites(counted.clock, cfg, e.pulse.value);
      MakeTimeCorrectionWrites(counted, cfg, e.pulse.value);
    }
    FinishKeepsVote(ReadPPS(voted, cfg, e).client, cfg, e);
  }

  lemma FinishKeepsVote(c: Client, cfg: Config, e: Pass)
    requires c.servo.Wf()
    ensures var f := Finish(c, cfg, e).0;
      f.clock.consensusTimeError == c.clock.consensusTimeError && f.servo.seqNum == c.servo.seqNum
  {
  }

  // ----- the serial link in a pass

  lemma ReadPPSLink(c: Client, cfg: Config, e: Pass)
    requires c.servo.Wf()
    ensures var o := ReadPPS(c, cfg, e);
      && o.client.link == c.link
      && o.client.clock.serialTimeError ==
           (if SetsSerial(c, cfg, e) || (o.ok && RestartsIn(c, cfg, e)) then 0 else c.clock.serialTimeError)
      && SecondsInjected(o.injected) ==
           (if e.pulse.None? then 0 else VotedSeconds(c.clock, cfg, e.pulse.value)) +
           (if SetsSerial(c, cfg, e) then c.clock.serialTimeError else 0)
  {
    hide MakeTimeCorrection;
    var counted := Counted(c, e);
    if e.pulse.Some? {
      MakeTimeCorrectionLink(counted, cfg, e.pulse.value);
    }
  }

  lemma FinishLink(c: Client, cfg: Config, e: Pass, t: SerialTime.Trace)
    requires c.servo.Wf() && Follows(c, t)
    ensures Follows(Finish(c, cfg, e).0,
      if cfg.doSerialsettime then SerialTime.Step(t, SerialTime.Query(c.servo.seqNum, e.reading, e.threadOk)) else t)
  {
  }

  /** The whole seconds of all serial corrections applied. */
  function AppliedSeconds(applied: seq<SerialTime.Applied>): int {
    if applied == [] then 0
    else AppliedSeconds(applied[..|applied| - 1]) + applied[|applied| - 1].sec
  }

  lemma StepApplies(t: SerialTime.Trace, e: SerialTime.Event)
    ensures AppliedSeconds(SerialTime.Step(t, e).applied) ==
      AppliedSeconds(t.applied) + if e.Apply? then t.pending else 0
  {
  }

  /** What a step writes for the vote is what `VoteWritten` says. */
  lemma VotedIsWritten(c: Client, cfg: Config, e: Pass)
    ensures var voted := TakeVote(c, cfg, e);
      (if e.pulse.None? then 0 else VotedSeconds(voted.clock, cfg, e.pulse.value)) ==
      VoteWritten(c.clock.consensusTimeError, cfg, e)
  {
  }

  lemma ReadPPSFollows(c: Client, cfg: Config, e: Pass, t: SerialTime.Trace)
    requires c.servo.Wf() && Follows(c, t)
    ensures var o := ReadPPS(c, cfg, e);
      var mid := if SetsSerial(c, cfg, e) then SerialTime.Step(t, SerialTime.Apply) else t;
      && (o.ok && !RestartsIn(c, cfg, e) ==> Follows(o.client, mid))
      && (o.ok && RestartsIn(c, cfg, e) ==> Follows(o.client, SerialTime.Step(mid, SerialTime.Restart)))
      && (!o.ok ==> Follows(o.client, mid))
      && SecondsInjected(o.injected) ==
           (if e.pulse.None? then 0 else VotedSeconds(c.clock, cfg, e.pulse.value)) +
           AppliedSeconds(mid.applied) - AppliedSeconds(t.applied)
  {
    ReadPPSLink(c, cfg, e);
    StepApplies(t, SerialTime.Apply);
  }

  /**
   * The loop drives the serial link exactly as the protocol, and puts no whole second into the clock but those of
   * the vote and those that the protocol applies.
   */
  lemma StepFollowsProtocol(c: Client, cfg: Config, e: Pass, t: SerialTime.Trace)
    requires c.servo.Wf() && Follows(c, t)
    ensures var u := Fold(t, LinkEvents(c, cfg, e));
      var o := Step(c, cfg, e);
      && Follows(o.client, u)
      && SecondsInjected(o.injected) ==
           VoteWritten(c.clock.consensusTimeError, cfg, e) + AppliedSeconds(u.applied) - AppliedSeconds(t.applied)
  {
    hide ReadPPS, RestartsIn, Finish, VoteWritten, AppliedSeconds, SetsSerial;
    var voted := TakeVote(c, cfg, e);
    VotedIsWritten(c, cfg, e);
    ReadPPSFollows(voted, cfg, e, t);
    FoldTwo(t, ApplyEvents(voted, cfg, e), QueryEvents(voted, cfg, e));
    var o := ReadPPS(voted, cfg, e);
    var mid := if SetsSerial(voted, cfg, e) then SerialTime.Step(t, SerialTime.Apply) else t;
    if QueryEvents(voted, cfg, e) != [] {
      StepApplies(mid, QueryEvents(voted, cfg, e)[0]);
    }
    if o.ok && !RestartsIn(voted, cfg, e) {
      FinishLink(o.client, cfg, e, mid);
    }
  }

  // ----- serial time over whole runs

  /** The events of the serial protocol in a run of the loop. */
  function AllLinkEvents(w: C.World, events: seq<C.Event>): seq<SerialTime.Event>
    requires w.client.servo.Wf()
    decreases |events|
  {
    if events == [] || !w.ok then []
    else LinkEvents(w.client, w.cfg, C.Timed(w, events[0])) + AllLinkEvents(C.Advance(w, events[0]), events[1..])
  }

  /**
   * How far a run moves the whole seconds of the clock by the passing of time, external sets and votes, where `kept` is
   * the vote that is still to be written.
   */
  function OtherMoves(w: C.World, events: seq<C.Event>, kept: int): int
    requires w.client.servo.Wf()
    decreases |events|
  {
    if events == [] || !w.ok then 0
    else
      var e, r := C.Timed(w, events[0]), C.Advance(w, events[0]);
      e.now - w.wall + VoteWritten(kept, w.cfg, e) +
      OtherMoves(r, events[1..], KeptVote(kept, w.cfg, e, e.pulse.Some? && r.client.servo.seqNum == 0))
  }

  lemma {:induction false} FoldAppend(t: SerialTime.Trace, x: seq<SerialTime.Event>, y: seq<SerialTime.Event>)
    ensures Fold(t, x + y) == Fold(Fold(t, x), y)
    decreases |x|
  {
    if x == [] {
      assert x + y == y;
    } else {
      assert (x + y)[0] == x[0] && (x + y)[1..] == x[1..] + y;
      FoldAppend(SerialTime.Step(t, x[0]), x[1..], y);
    }
  }

  lemma {:induction false} FoldIsRun(events: seq<SerialTime.Event>)
    ensures Fold(SerialTime.Begin, events) == SerialTime.Run(events)
    decreases |events|
  {
    if events != [] {
      var n := |events| - 1;
      FoldIsRun(events[..n]);
      assert events == events[..n] + events[n..];
      FoldAppend(SerialTime.Begin, events[..n], events[n..]);
      FoldOne(Fold(SerialTime.Begin, events[..n]), events[n..]);
    }
  }

  lemma AdvanceMoves(w: C.World, e: C.Event, t: SerialTime.Trace)
    requires w.client.servo.Wf() && w.ok && Follows(w.client, t)
    ensures var p := C.Timed(w, e);
      var u := Fold(t, LinkEvents(w.client, w.cfg, p));
      && Follows(C.Advance(w, e).client, u)
      && C.Advance(w, e).wall ==
           p.now + VoteWritten(w.client.clock.consensusTimeError, w.cfg, p) + AppliedSeconds(u.applied) - AppliedSeconds(t.applied)
      && (C.Advance(w, e).ok ==>
            C.Advance(w, e).client.clock.consensusTimeError ==
            KeptVote(w.client.clock.consensusTimeError, w.cfg, p, p.pulse.Some? && C.Advance(w, e).client.servo.seqNum == 0))
  {
    hide Step, LinkEvents, VoteWritten, KeptVote, WholeWrites;
    StepFollowsProtocol(w.client, w.cfg, C.Timed(w, e), t);
    StepWrites(w.client, w.cfg, C.Timed(w, e));
  }

  lemma {:induction false} RunFollowsProtocol(w: C.World, events: seq<C.Event>, t: SerialTime.Trace, kept: int)
    requires w.client.servo.Wf() && Follows(w.client, t) && (w.ok ==> w.client.clock.consensusTimeError == kept)
    ensures var u := Fold(t, AllLinkEvents(w, events));
      var v := C.Run(w, events);
      && Follows(v.client, u)
      && v.wall == w.wall + OtherMoves(w, events, kept) + AppliedSeconds(u.applied) - AppliedSeconds(t.applied)
    decreases |events|
  {
    hide C.Advance, LinkEvents, VoteWritten, KeptVote;
    if events == [] {
    } else if !w.ok {
      C.StoppedRun(w, events);
    } else {
      var p := C.Timed(w, events[0]);
      var u := Fold(t, LinkEvents(w.client, w.cfg, p));
      AdvanceMoves(w, events[0], t);
      var next := KeptVote(kept, w.cfg, p, p.pulse.Some? && C.Advance(w, events[0]).client.servo.seqNum == 0);
      RunFollowsProtocol(C.Advance(w, events[0]), events[1..], u, next);
      FoldAppend(t, LinkEvents(w.client, w.cfg, p), AllLinkEvents(C.Advance(w, events[0]), events[1..]));
    }
  }

  /**
   * For every run of the loop from program start, every whole second of the clock is accounted for: what time,
   * external sets and votes did not move was moved by serial corrections, each of them confirmed by a pair of
   * equal readings that was not used before; also when the configuration file changes on the way.
   */
  lemma LoopAppliesOnlyConfirmed(abs: AbsOverload, file: File, wall: int, mono: real, events: seq<C.Event>)
    ensures var w := C.Started(abs, file, wall, mono);
      var t := SerialTime.Run(AllLinkEvents(w, events));
      && C.Run(w, events).wall == wall + OtherMoves(w, events, 0) + AppliedSeconds(t.applied)
      && SerialTime.PairsConfirmed(t.readings, t.pairs)
      && SerialTime.AppliedOnce(t.applied, t.pairs)
  {
    var w := C.Started(abs, file, wall, mono);
    RunFollowsProtocol(w, events, SerialTime.Begin, 0);
    FoldIsRun(AllLinkEvents(w, events));
    SerialTime.AppliedOnlyIfConfirmed(AllLinkEvents(w, events));
  }

  // ----- the loop over its passes

  lemma {:induction false} LoopFront(c: Client, cfg: Config, passes: seq<Pass>)
    requires c.servo.Wf() && passes != []
    ensures var o := Step(c, cfg, passes[0]);
      var next := NextConfig(c, cfg, passes[0]);
      Loop(c, cfg, passes) == if o.ok then Loop(o.client, next, passes[1..]) else Progress(o.client, next, false)
    decreases |passes|
  {
    hide Step, NextConfig;
    var front := passes[..|passes| - 1];
    if front == [] {
      assert Loop(c, cfg, front) == Progress(c, cfg, true);
    } else {
      LoopFront(c, cfg, front);
      assert front[0] == passes[0] && front[1..] == passes[1..][..|passes[1..]| - 1];
    }
  }

  /** The passes of a run of `ClockRuns`, with the time that the clock shows in each. */
  function AllTimed(w: C.World, events: seq<C.Event>): seq<Pass>
    requires w.client.servo.Wf()
    decreases |events|
  {
    if events == [] || !w.ok then [] else [C.Timed(w, events[0])] + AllTimed(C.Advance(w, events[0]), events[1..])
  }

  /** Every run of `ClockRuns` is the loop over these passes. */
  lemma {:induction false} RunIsLoop(w: C.World, events: seq<C.Event>)
    requires w.client.servo.Wf() && w.ok
    ensures var r := C.Run(w, events);
      Loop(w.client, w.cfg, AllTimed(w, events)) == Progress(r.client, r.cfg, r.ok)
    decreases |events|
  {
    hide Step, NextConfig;
    if events != [] {
      var v := C.Advance(w, events[0]);
      var passes := AllTimed(w, events);
      LoopFront(w.client, w.cfg, passes);
      assert passes[0] == C.Timed(w, events[0]) && passes[1..] == AllTimed(v, events[1..]);
      if v.ok {
        RunIsLoop(v, events[1..]);
      } else {
        C.StoppedRun(v, events[1..]);
      }
    }
  }

  /** The passes of the controller that the loop consists of. */
  function LoopSeconds(c: Client, cfg: Config, passes: seq<Pass>): seq<R.Second>
    requires c.servo.Wf()
    decreases |passes|
  {
    if passes == [] then []
    else
      var o := Step(c, cfg, passes[0]);
      [SecondOf(c, cfg, passes[0])] + if o.ok then LoopSeconds(o.client, NextConfig(c, cfg, passes[0]), passes[1..]) else []
  }

  lemma {:induction false} LoopDrivesServo(c: Client, cfg: Config, passes: seq<Pass>, h: History)
    requires c.servo.Wf()
    ensures Loop(c, cfg, passes).client.servo == R.RunFrom(R.Traced(c.servo, h), LoopSeconds(c, cfg, passes)).s
    decreases |passes|
  {
    hide Step, NextConfig, SecondOf, R.Pass;
    if passes != [] {
      var e, o := passes[0], Step(c, cfg, passes[0]);
      LoopFront(c, cfg, passes);
      StepIsServoPass(c, cfg, e, h);
      var t := R.Pass(R.Traced(c.servo, h), SecondOf(c, cfg, e));
      var seconds := LoopSeconds(c, cfg, passes);
      if o.ok {
        LoopDrivesServo(o.client, NextConfig(c, cfg, e), passes[1..], t.h);
        assert seconds[1..] == LoopSeconds(o.client, NextConfig(c, cfg, e), passes[1..]);
      } else {
        assert seconds[1..] == [];
      }
    }
  }

  /** The events of the serial protocol in the loop. */
  function LoopLinkEvents(c: Client, cfg: Config, passes: seq<Pass>): seq<SerialTime.Event>
    requires c.servo.Wf()
    decreases |passes|
  {
    if passes == [] then []
    else
      var o := Step(c, cfg, passes[0]);
      LinkEvents(c, cfg, passes[0]) +
      if o.ok then LoopLinkEvents(o.client, NextConfig(c, cfg, passes[0]), passes[1..]) else []
  }

  lemma {:induction false} LoopDrivesLink(c: Client, cfg: Config, passes: seq<Pass>, t: SerialTime.Trace)
    requires c.servo.Wf() && Follows(c, t)
    ensures Follows(Loop(c, cfg, passes).client, Fold(t, LoopLinkEvents(c, cfg, passes)))
    decreases |passes|
  {
    hide Step, NextConfig, LinkEvents;
    if passes != [] {
      var e, o := passes[0], Step(c, cfg, passes[0]);
      var here := LinkEvents(c, cfg, e);
      LoopFront(c, cfg, passes);
      StepFollowsProtocol(c, cfg, e, t);
      if o.ok {
        var rest := LoopLinkEvents(o.client, NextConfig(c, cfg, e), passes[1..]);
        LoopDrivesLink(o.client, NextConfig(c, cfg, e), passes[1..], Fold(t, here));
        FoldAppend(t, here, rest);
      } else {
        assert here + [] == here;
      }
    }
  }

  /**
   * The loop from program start, over any passes: its controller is that of a run of the controller from program start,
   * and its serial link that of a run of the protocol, which applies only what two readings have confirmed.
   */
  lemma LoopFromStart(abs: AbsOverload, file: File, passes: seq<Pass>)
    ensures var c, cfg := Initialized(abs), Apply(Defaults, file);
      var r := Loop(c, cfg, passes).client;
      var t := SerialTime.Run(LoopLinkEvents(c, cfg, passes));
      && r.servo == R.Run(abs, LoopSeconds(c, cfg, passes)).s
      && Follows(r, t)
      && SerialTime.PairsConfirmed(t.readings, t.pairs)
      && SerialTime.AppliedOnce(t.applied, t.pairs)
  {
    var c, cfg := Initialized(abs), Apply(Defaults, file);
    LoopDrivesServo(c, cfg, passes, Start);
    LoopDrivesLink(c, cfg, passes, SerialTime.Begin);
    FoldIsRun(LoopLinkEvents(c, cfg, passes));
    SerialTime.AppliedOnlyIfConfirmed(LoopLinkEvents(c, cfg, passes));
  }
}
