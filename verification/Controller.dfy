/**
 * The controller of client/pps-client.cpp over mutable state: the fields of `struct G` that it uses, its functions
 * as methods that update them, and each method proved against its specification function.
 */
module PpsClient {
  import opened Wrappers
  import opened Arith
  import opened Configuration
  import opened Constants
  import opened Limiter
  import opened Frequency
  import opened Noise
  import opened Integrator
  import opened InterruptDelay
  import opened Servo
  import S = Servo
  import opened SystemClock
  import opened MainLoop
  import SerialTime

  class Controller {
    // fixed by the compiler
    const abs: AbsOverload

    // the configured switches
    var cfg: Config

    var seqNum: nat
    var isControlling: bool
    var activeCount: nat

    // the fields that count seconds, those that estimate the interrupt latency and those that average the slew
    var clock: Clock
    var latency: Latency
    var slew: Slew

    var rawError: int
    var nDelaySpikes: nat
    var isDelaySpike: bool

    var slewIsLow: bool

    var zeroError: int
    var hardLimit: int
    var invProportionalGain: int
    var timeCorrection: int

    var avgCorrection: real
    const correctionFifo: array<int>
    var correctionFifoCount: nat
    var correctionAccum: int

    const integral: array<real>
    var avgIntegral: real
    var integralCount: nat
    var correctionFifoIdx: nat

    var integralTimeCorrection: real
    var freqOffset: real

    // what was sent to the kernel: `adjtimex` calls since the latest reading, clock writes of the current pass
    var adjtimexCalls: seq<Adj>
    var injected: seq<Injection>

    // the abstract value of the controller, which `Valid` ties to the fields above
    ghost var servo: Servo

    ghost function IntegratorView(): Integrator
      reads this`correctionFifoCount, this`correctionAccum, this`avgCorrection, this`correctionFifoIdx,
            this`avgIntegral, this`integralCount, correctionFifo, integral
    {
      Integrator(correctionFifo[..], correctionFifoCount, correctionAccum, avgCorrection,
                 correctionFifoIdx, integral[..], avgIntegral, integralCount)
    }

    ghost predicate Valid()
      reads this`servo, this`seqNum, this`isControlling, this`activeCount, this`slewIsLow, this`latency,
            this`nDelaySpikes, this`isDelaySpike, this`slew, this`hardLimit, this`invProportionalGain,
            this`rawError, this`zeroError, this`timeCorrection, this`integralTimeCorrection, this`freqOffset,
            this`adjtimexCalls, this`correctionFifoCount, this`correctionAccum, this`avgCorrection,
            this`correctionFifoIdx, this`avgIntegral, this`integralCount, correctionFifo, integral
    {
      && servo.abs == abs
      && servo.seqNum == seqNum && servo.isControlling == isControlling
      && servo.activeCount == activeCount && servo.slewIsLow == slewIsLow
      && servo.latency == latency
      && servo.nDelaySpikes == nDelaySpikes && servo.isDelaySpike == isDelaySpike && servo.slew == slew
      && servo.hardLimit == hardLimit && servo.invProportionalGain == invProportionalGain
      && servo.rawError == rawError && servo.zeroError == zeroError && servo.timeCorrection == timeCorrection
      && servo.integrator == IntegratorView()
      && servo.integralTimeCorrection == integralTimeCorrection && servo.freqOffset == freqOffset
      && servo.adjtimex == adjtimexCalls
      && servo.Wf()
    }

    constructor (abs: AbsOverload)
      ensures fresh(correctionFifo) && fresh(integral)
      ensures cfg == Defaults && injected == []
      ensures Valid() && servo == Initial(abs) && clock == InitialClock
    {
      this.abs := abs;
      correctionFifo := new int[OFFSETFIFO_LEN];
      integral := new real[NUM_INTEGRALS];
      adjtimexCalls, injected := [], [];
      new;
      StartUp();
    }

    method Adjtimex(call: Adj)
      modifies this`adjtimexCalls
      ensures adjtimexCalls == old(adjtimexCalls) + [call]
    {
      adjtimexCalls := adjtimexCalls + [call];
    }

    method SetDelayTrackers()
      modifies this`latency
      ensures latency == Retrack(old(latency))
    {
      latency := latency.(noiseLevel := Round(latency.sysDelay as real * NOISE_FACTOR) + 1);
      if latency.noiseLevel < NOISE_LEVEL_MIN {
        latency := latency.(noiseLevel := NOISE_LEVEL_MIN);
      }
    }

    method ClearBuffers()
      modifies correctionFifo, integral
      ensures correctionFifo[..] == seq(correctionFifo.Length, _ => 0)
      ensures integral[..] == seq(integral.Length, _ => 0.0)
    {
      forall i | 0 <= i < correctionFifo.Length {
        correctionFifo[i] := 0;
      }
      forall i | 0 <= i < integral.Length {
        integral[i] := 0.0;
      }
    }

    method Initialize()
      requires correctionFifo.Length == OFFSETFIFO_LEN && integral.Length == NUM_INTEGRALS
      modifies this, correctionFifo, integral
      ensures injected == old(injected) && cfg == Defaults
      ensures Valid() && servo == Cleared(abs, old(adjtimexCalls)) && clock == InitialClock
    {
      ClearIntegrator();
      ClearFields();
      clock, servo := InitialClock, Cleared(abs, adjtimexCalls);
    }

    method ClearFields()
      modifies this`seqNum, this`isControlling, this`activeCount, this`slewIsLow, this`latency, this`slew,
               this`rawError, this`zeroError, this`timeCorrection, this`nDelaySpikes, this`isDelaySpike,
               this`integralTimeCorrection, this`freqOffset, this`invProportionalGain, this`hardLimit, this`cfg
      ensures seqNum == 0 && !isControlling && activeCount == 0 && !slewIsLow
      ensures latency == InitialLatency && slew == Slew(0.0, 0, 0.0)
      ensures rawError == 0 && zeroError == 0 && timeCorrection == 0 && nDelaySpikes == 0 && !isDelaySpike
      ensures integralTimeCorrection == 0.0 && freqOffset == 0.0
      ensures invProportionalGain == INV_GAIN_0 && hardLimit == HARD_LIMIT_NONE && cfg == Defaults
    {
      ClearCounters();
      ClearEstimates();
    }

    method ClearEstimates()
      modifies this`latency, this`slew, this`integralTimeCorrection, this`freqOffset, this`invProportionalGain,
               this`hardLimit, this`cfg
      ensures latency == InitialLatency && slew == Slew(0.0, 0, 0.0)
      ensures integralTimeCorrection == 0.0 && freqOffset == 0.0
      ensures invProportionalGain == INV_GAIN_0 && hardLimit == HARD_LIMIT_NONE && cfg == Defaults
    {
      latency, slew := InitialLatency, Slew(0.0, 0, 0.0);
      integralTimeCorrection, freqOffset := 0.0, 0.0;
      invProportionalGain := INV_GAIN_0;
      hardLimit := HARD_LIMIT_NONE;
      cfg := Config(true, false, true);
    }

    method ClearCounters()
      modifies this`seqNum, this`isControlling, this`activeCount, this`slewIsLow,
               this`rawError, this`zeroError, this`timeCorrection, this`nDelaySpikes, this`isDelaySpike
      ensures seqNum == 0 && !isControlling && activeCount == 0 && !slewIsLow
      ensures rawError == 0 && zeroError == 0 && timeCorrection == 0 && nDelaySpikes == 0 && !isDelaySpike
    {
      seqNum, isControlling, activeCount, slewIsLow := 0, false, 0, false;
      rawError, zeroError, timeCorrection, nDelaySpikes, isDelaySpike := 0, 0, 0, 0, false;
    }

    method ClearIntegrator()
      requires correctionFifo.Length == OFFSETFIFO_LEN && integral.Length == NUM_INTEGRALS
      modifies this`avgCorrection, this`correctionFifoCount, this`correctionAccum,
               this`avgIntegral, this`integralCount, this`correctionFifoIdx, correctionFifo, integral
      ensures IntegratorView() == EmptyIntegrator()
    {
      ClearBuffers();
      avgCorrection, correctionFifoCount, correctionAccum := 0.0, 0, 0;
      avgIntegral, integralCount, correctionFifoIdx := 0.0, 0, 0;
    }

    /** What follows `initialize` at program start and at a restart. */
    method StartUp()
      requires correctionFifo.Length == OFFSETFIFO_LEN && integral.Length == NUM_INTEGRALS
      modifies this, correctionFifo, integral
      ensures injected == old(injected) && cfg == Defaults
      ensures Valid() && servo == Reset(abs, old(adjtimexCalls)) && clock == InitialClock
    {
      Initialize();
      Adjtimex(SetFrequency(0));
      SetDelayTrackers();
      servo := Reset(abs, old(adjtimexCalls));
    }

    /** `processFiles` on what it reads. */
    method ProcessFiles(settings: Option<File>)
      modifies this`cfg
      ensures cfg == Process(old(cfg), settings)
    {
      if settings.None? {
        return;
      }
      var file := settings.value;
      if file.calibrate == Enabled {
        cfg := cfg.(doCalibration := true);
      } else if file.calibrate == Disabled {
        cfg := cfg.(doCalibration := false);
      }
      if file.sntp == Enabled {
        cfg := cfg.(doNTPsettime := true);
      } else if file.sntp == Disabled {
        cfg := cfg.(doNTPsettime := false);
      }
      if file.serial == Enabled {
        cfg := cfg.(doNTPsettime := false);
        cfg := cfg.(doSerialsettime := true);
      } else if file.serial == Disabled {
        cfg := cfg.(doSerialsettime := false);
      }
    }

    method GetAcquireState() returns (acquired: bool)
      modifies this`slewIsLow
      ensures slewIsLow == (old(slewIsLow) || (slew.cnt == 0 && AbsR(slew.avg) < SLEW_MAX))
      ensures acquired == (slewIsLow && seqNum >= SECS_PER_MINUTE)
    {
      if !slewIsLow && slew.cnt == 0 && AbsR(slew.avg) < SLEW_MAX {
        slewIsLow := true;
      }
      acquired := slewIsLow && seqNum >= SECS_PER_MINUTE;
    }

    method SetHardLimit(average: real)
      requires hardLimit >= 1
      modifies this`hardLimit
      ensures hardLimit == NextLimit(old(hardLimit), activeCount, abs, slew.avg, average)
    {
      var avgMedianMag := AbsR(average);
      if activeCount < SECS_PER_MINUTE {
        hardLimit := HARD_LIMIT_NONE;
        return;
      }
      if SlewMag(abs, slew.avg) > SLEW_MAX {
        var d_4 := SlewFloor(abs, slew.avg);
        while hardLimit < d_4 && hardLimit < HARD_LIMIT_NONE
          invariant hardLimit >= 1
          invariant RaiseTo(hardLimit, d_4) == RaiseTo(old(hardLimit), d_4)
          decreases HARD_LIMIT_NONE - hardLimit
        {
          hardLimit := hardLimit * 2;
        }
        return;
      }
      if hardLimit == HARD_LIMIT_1 {
        if avgMedianMag > HARD_LIMIT_05 {
          hardLimit := hardLimit * 2;
        }
      } else if avgMedianMag < HARD_LIMIT_05 {
        hardLimit := HARD_LIMIT_1;
      } else if avgMedianMag < (hardLimit / 4) as real {
        hardLimit := hardLimit / 2;
      } else if avgMedianMag > (hardLimit / 2) as real {
        hardLimit := hardLimit * 2;
        if hardLimit > HARD_LIMIT_NONE {
          hardLimit := HARD_LIMIT_NONE;
        }
      }
    }

    method DetectDelaySpike(error: int) returns (spike: bool)
      modifies this`nDelaySpikes
      ensures spike == Rejects(error, hardLimit, latency.noiseLevel, old(nDelaySpikes))
      ensures nDelaySpikes == NextSpikes(error, hardLimit, latency.noiseLevel, old(nDelaySpikes))
    {
      spike := false;
      if hardLimit <= HARD_LIMIT_4 && error >= latency.noiseLevel {
        if nDelaySpikes < MAX_SPIKES {
          nDelaySpikes := nDelaySpikes + 1;
          spike := true;
        }
      } else if nDelaySpikes > 0 {
        nDelaySpikes := 0;
      }
    }

    method GetTimeSlew(error: int)
      modifies this`slew
      ensures slew == NextSlew(old(slew), error)
    {
      slew := slew.(accum := slew.accum + error as real, cnt := slew.cnt + 1);
      if slew.cnt >= SLEW_LEN {
        slew := slew.(cnt := 0, avg := slew.accum / SLEW_LEN as real);
        slew := slew.(accum := 0.0);
      }
    }

    method ClampJitter(error: int) returns (clamped: int)
      ensures clamped == Clamp(error, hardLimit)
    {
      clamped := error;
      if error > hardLimit {
        clamped := hardLimit;
      } else if error < -hardLimit {
        clamped := -hardLimit;
      }
    }

    method MakeAverageIntegral(average: real)
      requires IntegratorView().Wf() && average == avgCorrection
      modifies this`avgIntegral, this`integralCount, integral
      ensures IntegratorView() == Integrate(old(IntegratorView()), hardLimit)
    {
      var indexOffset := SECS_PER_MINUTE - NUM_INTEGRALS;
      if correctionFifoIdx >= indexOffset {
        var i := correctionFifoIdx - indexOffset;
        if i == 0 {
          avgIntegral := 0.0;
          integralCount := 0;
        }
        integral[i] := integral[i] + average;
        if hardLimit == HARD_LIMIT_1 {
          avgIntegral := avgIntegral + integral[i];
          integralCount := integralCount + 1;
        }
      }
      if correctionFifoIdx == SECS_PER_MINUTE - 1 && integralCount == NUM_INTEGRALS {
        avgIntegral := avgIntegral / 10.0;
      }
    }

    method IntegralIsReady() returns (ready: bool)
      requires IntegratorView().Wf()
      modifies this`correctionFifoIdx, this`latency
      ensures ready == (old(correctionFifoIdx) == 0)
      ensures latency == if ready then Retrack(old(latency)) else old(latency)
      ensures IntegratorView() == Advance(old(IntegratorView()))
    {
      ready := false;
      if correctionFifoIdx == 0 {
        SetDelayTrackers();
        ready := true;
      }
      correctionFifoIdx := correctionFifoIdx + 1;
      if correctionFifoIdx >= SECS_PER_MINUTE {
        correctionFifoIdx := 0;
      }
    }

    method GetAverageCorrection(correction: int) returns (average: real)
      requires IntegratorView().Wf()
      modifies this`correctionAccum, this`correctionFifoCount, correctionFifo
      ensures IntegratorView().(avgCorrection := average) == Average(old(IntegratorView()), correction)
    {
      correctionAccum := correctionAccum + correction;
      if correctionFifoCount == SECS_PER_MINUTE {
        var oldError := correctionFifo[correctionFifoIdx];
        correctionAccum := correctionAccum - oldError;
      }
      correctionFifo[correctionFifoIdx] := correction;
      if correctionFifoCount < SECS_PER_MINUTE {
        correctionFifoCount := correctionFifoCount + 1;
      }
      average := correctionAccum as real / 60.0;
    }

    method GetIntegral() returns (selected: real)
      requires IntegratorView().Wf()
      ensures selected == SelectIntegral(IntegratorView(), hardLimit)
    {
      if hardLimit == HARD_LIMIT_1 && integralCount == NUM_INTEGRALS {
        selected := avgIntegral;
      } else {
        selected := integral[9];
      }
    }

    method RemoveNoise(error: int) returns (zeroErr: int)
      requires Valid()
      modifies this`nDelaySpikes, this`isDelaySpike, this`slew, this`hardLimit, this`invProportionalGain
      ensures var n := S.RemoveNoise(servo, error);
        && isDelaySpike == n.isDelaySpike && nDelaySpikes == n.nDelaySpikes
        && slew == n.slew && hardLimit == n.hardLimit && invProportionalGain == n.invProportionalGain
        && zeroErr == n.zeroError
    {
      isDelaySpike := DetectDelaySpike(error);
      if isDelaySpike {
        return 0;
      }
      GetTimeSlew(error);
      SetHardLimit(avgCorrection);
      zeroErr := ClampJitter(error);
      if isControlling {
        invProportionalGain := INV_GAIN_1;
      }
    }

    // ----- whole seconds

    method WriteDriver(write: Injection, succeeds: bool) returns (rv: int)
      modifies this`injected
      ensures rv == if succeeds then 0 else -1
      ensures injected == old(injected) + if succeeds then [write] else []
    {
      if !succeeds {
        return -1;
      }
      injected := injected + [write];
      return 0;
    }

    method SetClockToNTPtime(succeeds: bool) returns (rv: int)
      modifies this`injected, this`clock
      ensures rv == if succeeds then 0 else -1
      ensures injected == old(injected) + if succeeds then [WholeSeconds(old(clock).consensusTimeError)] else []
      ensures clock == if succeeds then old(clock).(consensusTimeError := 0) else old(clock)
    {
      rv := WriteDriver(WholeSeconds(clock.consensusTimeError), succeeds);
      if rv == -1 {
        return;
      }
      clock := clock.(consensusTimeError := 0);
    }

    method SetClockToSerialTime(succeeds: bool) returns (rv: int)
      modifies this`injected, this`clock
      ensures rv == if succeeds then 0 else -1
      ensures injected == old(injected) + if succeeds then [WholeSeconds(old(clock).serialTimeError)] else []
      ensures clock == if succeeds
        then old(clock).(tCount := old(clock).tCount + old(clock).serialTimeError, serialTimeError := 0)
        else old(clock)
    {
      rv := WriteDriver(WholeSeconds(clock.serialTimeError), succeeds);
      if rv == -1 {
        return;
      }
      clock := clock.(tCount := clock.tCount + clock.serialTimeError);
      clock := clock.(serialTimeError := 0);
    }

    method GetFractionalSeconds(usec: int) returns (interruptTime: int)
      ensures interruptTime == Fraction(usec)
    {
      interruptTime := usec;
      if interruptTime > 500000 {
        interruptTime := interruptTime - USECS_PER_SEC;
      }
    }

    method IncreaseMonotonicCount(mono: real, now: int)
      requires Valid()
      modifies this`clock
      ensures Valid()
      ensures clock == Increase(old(clock), seqNum, mono, now)
    {
      var c := clock.(monoNow := mono);
      if seqNum < 2 {
        c := c.(monoLast := c.monoNow - 1.0);
      }
      c := c.(tNow := now);
      if seqNum == 0 {
        c := c.(tCount := c.tNow);
      }
      var diff := c.monoNow - c.monoLast;
      c := c.(tCount := c.tCount + Round(diff));
      c := c.(monoLast := c.monoNow);
      if c.blockDetect > 0 {
        c := c.(blockDetect := c.blockDetect - 1);
        if c.blockDetect == 0 {
          c := c.(tCount := c.tNow);
        }
      }
      clock := c;
    }

    method DetectExternalSystemClockChange() returns (clockChanged: bool)
      modifies this`clock
      ensures clockChanged == (seqNum > SLEW_LEN && AbsR(slew.avg) < SLEW_MAX && old(clock).tNow != old(clock).tCount)
      ensures clock == if clockChanged then old(clock).(tCount := old(clock).tNow) else old(clock)
    {
      clockChanged := false;
      if seqNum > SLEW_LEN && AbsR(slew.avg) < SLEW_MAX {
        if clock.tNow != clock.tCount {
          clockChanged := true;
          clock := clock.(tCount := clock.tNow);
        }
      }
    }

    /** The first part of `makeTimeCorrection`: whole-second corrections. */
    method SetWholeSeconds(p: Pulse) returns (rv: int)
      requires Valid()
      modifies this`injected, this`clock
      ensures Valid()
      ensures var r := SetSeconds(old(clock), cfg, p);
        rv == (if r.ok then 0 else -1) && clock == r.clock && injected == old(injected) + r.injected
    {
      rv := 0;
      if cfg.doNTPsettime && clock.consensusTimeError != 0 {
        rv := SetClockToNTPtime(p.ntpOk);
        if rv == -1 {
          return;
        }
        clock := clock.(blockDetect := BLOCK_FOR_3);
      }
      if cfg.doSerialsettime && clock.serialTimeError != 0 {
        rv := SetClockToSerialTime(p.serialOk);
      }
    }

    /** The second part: an external change of the clock is reported and its fraction of a second cancelled. */
    method CancelExternalChange(p: Pulse) returns (rv: int, reported: bool, usec: int)
      requires Valid()
      modifies this`injected, this`clock
      ensures Valid()
      ensures reported == Reports(old(clock), seqNum, slew.avg)
      ensures rv == if reported && !p.fractionOk then -1 else 0
      ensures usec == if reported then latency.sysDelay else p.usec
      ensures injected == old(injected) + if reported && p.fractionOk then [Microseconds(-Fraction(p.usec))] else []
      ensures clock == if reported then old(clock).(tCount := old(clock).tNow) else old(clock)
    {
      rv, reported, usec := 0, false, p.usec;
      if clock.blockDetect == 0 {
        reported := DetectExternalSystemClockChange();
        if reported {
          var fraction := GetFractionalSeconds(usec);
          rv := WriteDriver(Microseconds(-fraction), p.fractionOk);
          usec := latency.sysDelay;
        }
      }
    }

    /** The last part, from the known raw error on. */
    method CorrectError(error: int)
      requires Valid()
      modifies this, correctionFifo, integral
      ensures Valid() && servo == Tick(old(servo), error)
      ensures clock == if !servo.isDelaySpike && !servo.isControlling then old(clock).(tCount := old(clock).tNow) else old(clock)
      ensures injected == old(injected) && cfg == old(cfg)
    {
      TakeReading(error);
      FilterError(error);
      if !isDelaySpike {
        AcceptError();
      }
    }

    method AcceptError()
      requires Valid() && !isDelaySpike
      modifies this, correctionFifo, integral
      ensures Valid() && servo == Accept(old(servo)) && !servo.isDelaySpike
      ensures clock == if !servo.isControlling then old(clock).(tCount := old(clock).tNow) else old(clock)
      ensures injected == old(injected) && cfg == old(cfg)
    {
      hide SlewTime, Acquire, Control;
      AcceptKeeps(servo);
      AdjustTime();
      StartControl();
      if isControlling {
        UpdateFrequency();
      } else {
        FollowClock();
      }
    }

    method TakeReading(error: int)
      requires Valid()
      modifies this`adjtimexCalls, this`seqNum, this`rawError, this`servo
      ensures Valid() && servo == Begin(old(servo), error) && rawError == error
    {
      adjtimexCalls := [];
      seqNum := seqNum + 1;
      rawError := error;
      servo := Begin(servo, error);
    }

    method FilterError(error: int)
      requires Valid() && error == rawError
      modifies this`zeroError, this`nDelaySpikes, this`isDelaySpike, this`slew, this`hardLimit,
               this`invProportionalGain, this`servo
      ensures Valid() && servo == S.RemoveNoise(old(servo), error)
    {
      ghost var n := S.RemoveNoise(servo, error);
      zeroError := RemoveNoise(error);
      servo := servo.(nDelaySpikes := n.nDelaySpikes, isDelaySpike := n.isDelaySpike, slew := n.slew,
                      hardLimit := n.hardLimit, invProportionalGain := n.invProportionalGain, zeroError := n.zeroError);
    }

    method AdjustTime()
      requires Valid()
      modifies this`timeCorrection, this`adjtimexCalls, this`servo
      ensures Valid() && servo == SlewTime(old(servo))
    {
      timeCorrection := TruncDiv(-zeroError, invProportionalGain);
      adjtimexCalls := adjtimexCalls + [SingleShot(timeCorrection)];
      servo := SlewTime(servo);
    }

    method StartControl()
      requires Valid()
      modifies this`slewIsLow, this`isControlling, this`servo
      ensures Valid() && servo == Acquire(old(servo))
    {
      isControlling := GetAcquireState();
      servo := Acquire(servo);
    }

    method FollowClock()
      requires Valid()
      modifies this`clock
      ensures Valid() && clock == old(clock).(tCount := old(clock).tNow)
    {
      clock := clock.(tCount := clock.tNow);
    }

    /** What `makeTimeCorrection` does with its correction once it is controlling. */
    method UpdateFrequency()
      requires Valid()
      modifies this`correctionAccum, this`correctionFifoCount, this`avgCorrection, this`avgIntegral, this`integralCount,
               this`correctionFifoIdx, this`latency, this`integralTimeCorrection, this`freqOffset,
               this`adjtimexCalls, this`activeCount, this`servo, correctionFifo, integral
      ensures Valid() && servo == Control(old(servo))
    {
      var ready := AccumulateCorrection();
      if ready {
        CommandFrequency();
      }
    }

    method AccumulateCorrection() returns (ready: bool)
      requires Valid()
      modifies this`correctionAccum, this`correctionFifoCount, this`avgCorrection, this`avgIntegral, this`integralCount,
               this`correctionFifoIdx, this`latency, this`activeCount, this`servo, correctionFifo, integral
      ensures ready == (old(servo).integrator.idx == 0)
      ensures Valid() && servo == Accumulate(old(servo))
    {
      ready := IntegrateCorrection();
      activeCount := activeCount + 1;
      servo := Accumulate(servo);
    }

    method IntegrateCorrection() returns (ready: bool)
      requires IntegratorView().Wf()
      modifies this`correctionAccum, this`correctionFifoCount, this`avgCorrection, this`avgIntegral, this`integralCount,
               this`correctionFifoIdx, this`latency, correctionFifo, integral
      ensures ready == (old(correctionFifoIdx) == 0)
      ensures IntegratorView() == Feed(old(IntegratorView()), timeCorrection, hardLimit)
      ensures latency == if ready then Retrack(old(latency)) else old(latency)
    {
      avgCorrection := GetAverageCorrection(timeCorrection);
      MakeAverageIntegral(avgCorrection);
      ready := IntegralIsReady();
    }

    method CommandFrequency()
      requires Valid()
      modifies this`integralTimeCorrection, this`freqOffset, this`adjtimexCalls, this`servo
      ensures Valid() && servo == Command(old(servo))
    {
      integralTimeCorrection := GetIntegral();
      freqOffset := integralTimeCorrection * INTEGRAL_GAIN;
      adjtimexCalls := adjtimexCalls + [SetFrequency(Round(ADJTIMEX_SCALE * freqOffset))];
      servo := Command(servo);
    }

    method CorrectTime(p: Pulse, ghost link: SerialTime.Link) returns (rv: int, reported: bool)
      requires Valid()
      modifies this, correctionFifo, integral
      ensures var o := MainLoop.CorrectTime(old(Client(servo, clock, link)), p);
        && rv == (if o.ok then 0 else -1) && reported == o.reported
        && Valid() && Client(servo, clock, link) == o.client && injected == old(injected) + o.injected && cfg == old(cfg)
    {
      hide Tick;
      var usec;
      rv, reported, usec := CancelExternalChange(p);
      if rv == 0 {
        var interruptTime := GetFractionalSeconds(usec);
        CorrectError(interruptTime - latency.sysDelay);
      }
    }

    method MakeTimeCorrection(p: Pulse, ghost link: SerialTime.Link) returns (rv: int, reported: bool)
      requires Valid()
      modifies this, correctionFifo, integral
      ensures var o := MainLoop.MakeTimeCorrection(old(Client(servo, clock, link)), old(cfg), p);
        && rv == (if o.ok then 0 else -1) && reported == o.reported
        && Valid() && Client(servo, clock, link) == o.client && injected == old(injected) + o.injected && cfg == old(cfg)
    {
      reported := false;
      rv := SetWholeSeconds(p);
      if rv == 0 {
        rv, reported := CorrectTime(p, link);
      }
    }

    /** `readPPS_SetTime`; the result is 1 after a restart and -1 on a driver error. */
    method ReadPPSSetTime(e: Pass, ghost link: SerialTime.Link) returns (restart: int, reported: bool)
      requires Valid()
      modifies this, correctionFifo, integral
      ensures var o := ReadPPS(old(Client(servo, clock, link)), old(cfg), e);
        && restart == (if !o.ok then -1 else if RestartsIn(old(Client(servo, clock, link)), old(cfg), e) then 1 else 0)
        && reported == o.reported
        && Valid() && Client(servo, clock, link) == o.client && injected == o.injected
        && cfg == (if restart == 1 then Defaults else old(cfg))
    {
      restart, reported := 0, false;
      injected := [];
      IncreaseMonotonicCount(e.mono, e.now);
      if e.pulse.Some? {
        restart, reported := MakeTimeCorrection(e.pulse.value, link);
        if restart == 0 {
          if (!isControlling && seqNum >= SECS_PER_MINUTE)
             || (isControlling && hardLimit > HARD_LIMIT_1024 && SlewMag(abs, slew.avg) > SLEW_MAX) {
            StartUp();
            restart := 1;
          }
        }
      }
    }

    // ----- calibration

    method DetectIntrptDelaySpike(error: int) returns (spike: bool)
      modifies this`latency
      ensures var l := old(latency);
        && spike == Rejects(error, hardLimit, l.noiseLevel, l.spikes)
        && latency == l.(spikes := NextSpikes(error, hardLimit, l.noiseLevel, l.spikes))
    {
      spike := false;
      if hardLimit <= HARD_LIMIT_4 && error >= latency.noiseLevel {
        if latency.spikes < MAX_SPIKES {
          latency := latency.(spikes := latency.spikes + 1);
          spike := true;
        }
      } else if latency.spikes > 0 {
        latency := latency.(spikes := 0);
      }
    }

    method RemoveIntrptNoise(error: int) returns (zeroErr: int)
      modifies this`latency
      ensures var l := old(latency);
        && zeroErr == (if Rejects(error, hardLimit, l.noiseLevel, l.spikes) then 0 else Clamp(error, hardLimit))
        && latency == l.(spikes := NextSpikes(error, hardLimit, l.noiseLevel, l.spikes))
    {
      var spike := DetectIntrptDelaySpike(error);
      if spike {
        return 0;
      }
      zeroErr := ClampJitter(error);
    }

    method GetInterruptDelay(io: Calibration) returns (rv: int)
      requires Valid()
      modifies this`latency, this`servo
      ensures var r := MainLoop.GetInterruptDelay(old(servo), io);
        rv == (if r.1 then 0 else -1) && Valid() && servo == r.0
    {
      rv := -1;
      if io.setOk && io.delay.Some? {
        MeasureDelay(io.delay.value);
        servo := servo.(latency := latency);
        if io.resetOk {
          rv := 0;
        }
      }
    }

    /** What the loop does at the end of a pass with an accepted pulse. */
    method CalibrateAndProcess(e: Pass) returns (rv: int)
      requires Valid()
      modifies this`latency, this`servo, this`cfg
      ensures var r := if old(cfg).doCalibration && hardLimit == HARD_LIMIT_1
          then MainLoop.GetInterruptDelay(old(servo), e.calibration) else (old(servo), true);
        && rv == (if r.1 then 0 else -1) && Valid() && servo == r.0
        && cfg == if r.1 then Process(old(cfg), e.settings) else old(cfg)
    {
      rv := 0;
      if cfg.doCalibration && hardLimit == HARD_LIMIT_1 {
        rv := GetInterruptDelay(e.calibration);
      }
      if rv == 0 {
        ProcessFiles(e.settings);
      }
    }

    method MeasureDelay(delay: int)
      modifies this`latency
      ensures latency == Measure(old(latency), delay, hardLimit)
    {
      latency := latency.(intrptDelay := delay);
      latency := latency.(intrptError := latency.intrptDelay - latency.sysDelay);
      var zeroErr := RemoveIntrptNoise(latency.intrptError);
      latency := latency.(delayMedian := latency.delayMedian + zeroErr as real / 60.0);
      latency := latency.(sysDelay := Round(latency.delayMedian));
    }
  }

  /** The main loop with the locals of pps-serial.cpp: `f` and the fields of `timeCheckParams` that it uses. */
  class Daemon {
    const g: Controller
    var lastSerialTimeDif: int
    var serverTimeDiff: int
    var threadDoReadSerial: bool
    var doReadSerial: bool
    var threadRv: SerialTime.ThreadResult

    ghost function Link(): SerialTime.Link
      reads this
    {
      SerialTime.Link(lastSerialTimeDif, serverTimeDiff, threadDoReadSerial, doReadSerial, threadRv)
    }

    ghost function View(): Client
      reads this, g
    {
      Client(g.servo, g.clock, Link())
    }

    constructor (abs: AbsOverload, file: File)
      ensures fresh(g) && fresh(g.correctionFifo) && fresh(g.integral)
      ensures g.cfg == Apply(Defaults, file) && g.Valid() && View() == Initialized(abs)
    {
      g := new Controller(abs);
      lastSerialTimeDif, serverTimeDiff := 0, 0;
      threadDoReadSerial, doReadSerial, threadRv := false, false, 0;
      new;
      g.ProcessFiles(Some(file));
    }

    /** The thread body; `reading` is what the serial port delivers to it. */
    method DoSerialTimeCheck(reading: SerialTime.Reading)
      modifies this`lastSerialTimeDif, this`serverTimeDiff, this`threadDoReadSerial, this`threadRv
      ensures Link() == SerialTime.Check(old(Link()), reading)
    {
      match reading
      case Valid(timeDif) =>
        if timeDif == 0 {
          threadDoReadSerial := false;
          serverTimeDiff := 0;
          lastSerialTimeDif := 0;
          threadRv := 1;
          return;
        }
        if timeDif != 0 && lastSerialTimeDif == 0 {
          serverTimeDiff := 0;
          lastSerialTimeDif := timeDif;
          threadDoReadSerial := true;
          threadRv := 0;
          return;
        }
        if timeDif == lastSerialTimeDif {
          threadDoReadSerial := false;
          serverTimeDiff := timeDif;
          lastSerialTimeDif := 0;
          threadRv := 1;
        } else {
          threadDoReadSerial := false;
          serverTimeDiff := 0;
          lastSerialTimeDif := 0;
          threadRv := 0;
        }
      case NoMessage =>
        threadDoReadSerial := true;
        threadRv := 0;
      case SystemError =>
        threadRv := -1;
    }

    method MakeSerialTimeQuery(e: Pass) returns (rv: int)
      requires g.Valid()
      modifies this, g`clock
      ensures var q := QuerySerial(old(View()), e);
        rv == (if q.1 then 0 else -1) && g.Valid() && View() == q.0
    {
      rv := threadRv;
      if rv != -1 {
        TakeResult();
        rv := 0;
        if doReadSerial {
          g.clock := g.clock.(blockDetect := BLOCK_FOR_3);
          if e.threadOk {
            DoSerialTimeCheck(e.reading);
          } else {
            rv := -1;
          }
        }
      }
    }

    /** The first half of `makeSerialTimeQuery`: the thread's result is handed over and the next read decided. */
    method TakeResult()
      requires g.Valid() && threadRv != -1
      modifies this, g`clock
      ensures g.Valid() && Link() == SerialTime.HandOver(old(Link()), g.seqNum)
      ensures g.clock == old(g.clock).(serialTimeError := old(serverTimeDiff))
    {
      if threadRv == 1 {
        threadRv := 0;
      }
      g.clock := g.clock.(serialTimeError := serverTimeDiff);
      serverTimeDiff := 0;
      doReadSerial := threadDoReadSerial;
      if g.seqNum == 1 || g.seqNum % CHECK_TIME_SERIAL == 0 {
        doReadSerial := true;
      }
    }

    method WaitForPPS(passes: seq<Pass>) returns (ok: bool)
      requires g.Valid()
      modifies this, g, g.correctionFifo, g.integral
      ensures g.Valid() && Progress(View(), g.cfg, ok) == Loop(old(View()), old(g.cfg), passes)
    {
      ok := true;
      for i := 0 to |passes|
        invariant g.Valid() && Progress(View(), g.cfg, ok) == Loop(old(View()), old(g.cfg), passes[..i])
      {
        assert passes[..i + 1][..i] == passes[..i];
        if ok {
          ok := OnePass(passes[i]);
        }
      }
      assert passes[..|passes|] == passes;
    }

    method TakeVote(e: Pass)
      requires g.Valid()
      modifies g`clock
      ensures g.Valid() && View() == MainLoop.TakeVote(old(View()), g.cfg, e)
    {
      if g.cfg.doNTPsettime && e.consensus.Some? {
        g.clock := g.clock.(consensusTimeError := e.consensus.value);
      }
    }

    /** What follows `readPPS_SetTime` in a pass. */
    method Finish(e: Pass) returns (ok: bool)
      requires g.Valid()
      modifies this, g
      ensures var f := MainLoop.Finish(old(View()), old(g.cfg), e);
        g.Valid() && View() == f.0 && ok == f.1 && g.injected == old(g.injected)
      ensures g.cfg ==
        if ok && e.pulse.Some? && !old(g.servo).isDelaySpike then Process(old(g.cfg), e.settings) else old(g.cfg)
    {
      var rv := 0;
      if g.cfg.doSerialsettime {
        rv := MakeSerialTimeQuery(e);
      }
      if rv == 0 && e.pulse.Some? && !g.isDelaySpike {
        rv := g.CalibrateAndProcess(e);
      }
      ok := rv == 0;
    }

    method OnePass(e: Pass) returns (ok: bool)
      requires g.Valid()
      modifies this, g, g.correctionFifo, g.integral
      ensures var o := MainLoop.Step(old(View()), old(g.cfg), e);
        g.Valid() && View() == o.client && ok == o.ok && g.injected == o.injected
      ensures g.cfg == NextConfig(old(View()), old(g.cfg), e)
    {
      TakeVote(e);
      var restart, _ := g.ReadPPSSetTime(e, Link());
      ok := restart != -1;
      if restart == 0 {
        ok := Finish(e);
      }
    }
  }
}
