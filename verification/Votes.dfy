/** Whole runs of the loop as the SNTP servers see it: which of their votes reach the clock, when, and how often. */
module Votes {
  import opened Wrappers
  import opened Configuration
  import opened Limiter
  import opened Servo
  import opened SystemClock
  import opened MainLoop
  import opened LoopRuns

  /** A vote and the pass that brought it. */
  datatype Ballot = Ballot(pass: nat, value: int)

  /**
   * For each pass of a run whether SNTP was enabled, the ballot that was written and the whole seconds that went to the
   * driver; and the ballot that is still to be written.
   */
  datatype Trail = Trail(enabled: seq<bool>, cast: seq<Option<Ballot>>, writes: seq<seq<int>>, pending: Option<Ballot>)

  /** The ballot before a pass that brings one while SNTP is enabled, or the one from before. */
  function Delivered(t: Trail, cfg: Config, e: Pass): Option<Ballot> {
    if cfg.doNTPsettime && e.consensus.Some? then Some(Ballot(|t.enabled|, e.consensus.value)) else t.pending
  }

  /** It is cast by a pulse read while SNTP is enabled, if it is not zero and the write succeeds. */
  function Cast(t: Trail, cfg: Config, e: Pass): Option<Ballot> {
    var b := Delivered(t, cfg, e);
    if e.pulse.Some? && cfg.doNTPsettime && b.Some? && b.value.value != 0 && e.pulse.value.ntpOk then b else None
  }

  function Record(t: Trail, c: Client, cfg: Config, e: Pass): Trail
    requires c.servo.Wf()
  {
    var o := Step(c, cfg, e);
    Trail(t.enabled + [cfg.doNTPsettime], t.cast + [Cast(t, cfg, e)], t.writes + [WholeWrites(o.injected)],
          if Cast(t, cfg, e).Some? || (e.pulse.Some? && o.client.servo.seqNum == 0) then None else Delivered(t, cfg, e))
  }

  /** The trail of the loop, up to a pass that fails. */
  function TrailOf(c: Client, cfg: Config, passes: seq<Pass>): Trail
    requires c.servo.Wf()
  {
    if passes == [] then Trail([], [], [], None)
    else
      var front := passes[..|passes| - 1];
      var r := Loop(c, cfg, front);
      if r.ok then Record(TrailOf(c, cfg, front), r.client, r.cfg, passes[|passes| - 1]) else TrailOf(c, cfg, front)
  }

  /** Pass k delivers a ballot while SNTP is enabled. */
  ghost predicate Delivers(t: Trail, passes: seq<Pass>, k: nat)
    requires k < |t.enabled| <= |passes|
  {
    t.enabled[k] && passes[k].consensus.Some?
  }

  /** The ballot is what its pass delivered, the latest before pass n, and no pulse before n was read that could cast it. */
  ghost predicate LatestBefore(t: Trail, passes: seq<Pass>, b: Ballot, n: nat)
    requires n <= |t.enabled| <= |passes|
  {
    && b.pass < n && t.enabled[b.pass] && passes[b.pass].consensus == Some(b.value)
    && (forall k :: b.pass < k < n ==> !Delivers(t, passes, k))
    && (b.value != 0 ==> forall k :: b.pass <= k < n ==> !(t.enabled[k] && passes[k].pulse.Some?))
  }

  /** The ballot cast in pass k is the latest one delivered until then, the pulse is the first that could cast it. */
  ghost predicate CastRight(t: Trail, passes: seq<Pass>, k: nat)
    requires k < |t.enabled| <= |passes| && |t.cast| == |t.writes| == |t.enabled|
  {
    t.cast[k].Some? ==>
      var b := t.cast[k].value;
      && b.value != 0 && b.pass <= k && t.enabled[k] && passes[k].pulse.Some? && passes[k].pulse.value.ntpOk
      && t.enabled[b.pass] && passes[b.pass].consensus == Some(b.value)
      && (forall j :: b.pass < j <= k ==> !Delivers(t, passes, j))
      && (forall j :: b.pass <= j < k ==> !(t.enabled[j] && passes[j].pulse.Some?))
      && |t.writes[k]| >= 1 && t.writes[k][0] == b.value
  }

  /** Besides a ballot, at most one serial correction goes to the driver in a pass. */
  ghost predicate WritesRight(t: Trail, k: nat)
    requires k < |t.cast| == |t.writes|
  {
    |t.writes[k]| <= (if t.cast[k].Some? then 2 else 1)
  }

  ghost predicate TrailRight(t: Trail, passes: seq<Pass>) {
    && |t.cast| == |t.writes| == |t.enabled| <= |passes|
    && (forall k :: 0 <= k < |t.enabled| ==> CastRight(t, passes, k) && WritesRight(t, k))
    && (forall j, k :: 0 <= j < k < |t.enabled| && t.cast[j].Some? && t.cast[k].Some? ==>
          t.cast[j].value.pass < t.cast[k].value.pass)
  }

  ghost predicate PendingRight(t: Trail, passes: seq<Pass>)
    requires TrailRight(t, passes)
  {
    t.pending.Some? ==>
      && LatestBefore(t, passes, t.pending.value, |t.enabled|)
      && forall k :: 0 <= k < |t.enabled| && t.cast[k].Some? ==> t.cast[k].value.pass < t.pending.value.pass
  }

  function Value(b: Option<Ballot>): int {
    if b.Some? then b.value.value else 0
  }

  /** What the client keeps is the pending ballot. */
  ghost predicate Keeps(t: Trail, passes: seq<Pass>, r: Progress) {
    TrailRight(t, passes) && (r.ok ==> |t.enabled| == |passes| && PendingRight(t, passes) && r.client.clock.consensusTimeError == Value(t.pending))
  }

  lemma DeliveredIsPending(t: Trail, cfg: Config, e: Pass)
    ensures Value(Delivered(t, cfg, e)) == PendingVote(Value(t.pending), cfg, e)
    ensures Cast(t, cfg, e).Some? <==> WritesVote(Value(t.pending), cfg, e)
  {
  }

  /** Appending a pass keeps what was right about the earlier ones. */
  lemma EarlierStayRight(t: Trail, u: Trail, passes: seq<Pass>, e: Pass, k: nat)
    requires TrailRight(t, passes) && |t.enabled| == |passes| && k < |passes|
    requires |u.enabled| == |u.cast| == |u.writes| == |passes| + 1
    requires u.enabled[..|passes|] == t.enabled && u.cast[..|passes|] == t.cast && u.writes[..|passes|] == t.writes
    ensures CastRight(u, passes + [e], k) && WritesRight(u, k)
  {
    var more := passes + [e];
    assert forall j :: 0 <= j < |passes| ==> u.enabled[j] == u.enabled[..|passes|][j] == t.enabled[j] && more[j] == passes[j];
    assert u.cast[k] == u.cast[..|passes|][k] && u.writes[k] == u.writes[..|passes|][k];
    assert CastRight(t, passes, k) && WritesRight(t, k);
    assert forall j :: 0 <= j < |passes| ==> Delivers(u, more, j) == Delivers(t, passes, j);
  }

  /** Every earlier ballot is older than the one delivered now. */
  lemma EarlierAreOlder(t: Trail, cfg: Config, passes: seq<Pass>, e: Pass, k: nat)
    requires TrailRight(t, passes) && PendingRight(t, passes) && k < |t.enabled|
    ensures t.cast[k].Some? && Delivered(t, cfg, e).Some? ==> t.cast[k].value.pass < Delivered(t, cfg, e).value.pass
  {
    assert CastRight(t, passes, k);
  }

  /** The ballot delivered now is the latest one, and no earlier pulse could have cast it. */
  lemma DeliveredIsLatest(t: Trail, u: Trail, cfg: Config, passes: seq<Pass>, e: Pass)
    requires TrailRight(t, passes) && PendingRight(t, passes) && |t.enabled| == |passes|
    requires u.enabled == t.enabled + [cfg.doNTPsettime] && Delivered(t, cfg, e).Some?
    ensures var b, n, more := Delivered(t, cfg, e).value, |passes|, passes + [e];
      && b.pass <= n && u.enabled[b.pass] && more[b.pass].consensus == Some(b.value)
      && (forall k :: b.pass < k <= n ==> !Delivers(u, more, k))
      && (b.value != 0 ==> forall k :: b.pass <= k < n ==> !(u.enabled[k] && more[k].pulse.Some?))
  {
    var b, n, more := Delivered(t, cfg, e).value, |passes|, passes + [e];
    assert forall k :: 0 <= k < n ==> u.enabled[k] == t.enabled[k] && more[k] == passes[k];
    assert u.enabled[n] == cfg.doNTPsettime && more[n] == e;
    forall k | b.pass < k <= n
      ensures !Delivers(u, more, k)
    {
      if k < n {
        assert !Delivers(t, passes, k);
      }
    }
  }

  lemma RecordIsRight(t: Trail, u: Trail, cfg: Config, passes: seq<Pass>, e: Pass, writes: seq<int>, forgets: bool)
    requires TrailRight(t, passes) && PendingRight(t, passes) && |t.enabled| == |passes|
    requires u == Trail(t.enabled + [cfg.doNTPsettime], t.cast + [Cast(t, cfg, e)], t.writes + [writes],
                        if Cast(t, cfg, e).Some? || forgets then None else Delivered(t, cfg, e))
    requires |writes| <= (if Cast(t, cfg, e).Some? then 2 else 1)
    requires Cast(t, cfg, e).Some? ==> |writes| >= 1 && writes[0] == Cast(t, cfg, e).value.value
    ensures TrailRight(u, passes + [e])
    ensures (Delivered(t, cfg, e).Some? && Delivered(t, cfg, e).value.value != 0 && cfg.doNTPsettime && e.pulse.Some? ==>
              Cast(t, cfg, e).Some?) ==> PendingRight(u, passes + [e])
  {
    var more, n := passes + [e], |passes|;
    forall k | 0 <= k < n
      ensures CastRight(u, more, k) && WritesRight(u, k)
      ensures u.cast[k] == t.cast[k]
      ensures t.cast[k].Some? && Delivered(t, cfg, e).Some? ==> t.cast[k].value.pass < Delivered(t, cfg, e).value.pass
    {
      EarlierStayRight(t, u, passes, e, k);
      EarlierAreOlder(t, cfg, passes, e, k);
    }
    if Delivered(t, cfg, e).Some? {
      DeliveredIsLatest(t, u, cfg, passes, e);
    }
    assert CastRight(u, more, n) && WritesRight(u, n);
  }

  lemma RecordKeeps(t: Trail, c: Client, cfg: Config, passes: seq<Pass>, e: Pass)
    requires c.servo.Wf() && Keeps(t, passes, Progress(c, cfg, true))
    ensures var o := Step(c, cfg, e);
      Keeps(Record(t, c, cfg, e), passes + [e], Progress(o.client, NextConfig(c, cfg, e), o.ok))
  {
    hide Step, NextConfig, WholeWrites, TrailRight, PendingRight;
    var o := Step(c, cfg, e);
    StepWrites(c, cfg, e);
    DeliveredIsPending(t, cfg, e);
    RecordIsRight(t, Record(t, c, cfg, e), cfg, passes, e, WholeWrites(o.injected), e.pulse.Some? && o.client.servo.seqNum == 0);
  }

  lemma {:induction false} TrailKeeps(c: Client, cfg: Config, passes: seq<Pass>)
    requires c.servo.Wf() && c.clock.consensusTimeError == 0
    ensures Keeps(TrailOf(c, cfg, passes), passes, Loop(c, cfg, passes))
  {
    hide Step, NextConfig, Record, Keeps;
    if passes == [] {
      EmptyKeeps(c, cfg);
    } else {
      var front, e := passes[..|passes| - 1], passes[|passes| - 1];
      TrailKeeps(c, cfg, front);
      var r := Loop(c, cfg, front);
      assert passes == front + [e];
      if r.ok {
        RecordKeeps(TrailOf(c, cfg, front), r.client, r.cfg, front, e);
      } else {
        StoppedKeeps(TrailOf(c, cfg, front), front, e, r);
      }
    }
  }

  lemma EmptyKeeps(c: Client, cfg: Config)
    requires c.clock.consensusTimeError == 0
    ensures Keeps(Trail([], [], [], None), [], Progress(c, cfg, true))
  {
  }

  lemma StoppedKeeps(t: Trail, passes: seq<Pass>, e: Pass, r: Progress)
    requires Keeps(t, passes, r) && !r.ok
    ensures Keeps(t, passes + [e], r)
  {
    var more := passes + [e];
    forall k | 0 <= k < |t.enabled|
      ensures CastRight(t, more, k) && WritesRight(t, k)
    {
      assert CastRight(t, passes, k) && WritesRight(t, k);
      assert forall j :: 0 <= j < |t.enabled| ==> Delivers(t, more, j) == Delivers(t, passes, j);
    }
  }

  /**
   * For every run of the loop from program start: whatever the SNTP servers have put into the clock was the latest of
   * their votes delivered while SNTP was enabled, unchanged, with the first pulse read while SNTP was enabled; no vote
   * is written twice; and nothing else goes to the driver but at most one serial correction in a pass.
   */
  lemma VotesAreWritten(abs: AbsOverload, file: File, passes: seq<Pass>)
    ensures var c, cfg := Initialized(abs), Apply(Defaults, file);
      Keeps(TrailOf(c, cfg, passes), passes, Loop(c, cfg, passes))
  {
    TrailKeeps(Initialized(abs), Apply(Defaults, file), passes);
  }

  /** A nonzero vote that is pending when a pulse is read with SNTP enabled is written, or the loop ends. */
  lemma PendingIsWritten(abs: AbsOverload, file: File, passes: seq<Pass>, e: Pass)
    requires var r := Loop(Initialized(abs), Apply(Defaults, file), passes);
      r.ok && r.cfg.doNTPsettime && e.pulse.Some?
    ensures var c, cfg := Initialized(abs), Apply(Defaults, file);
      var t, r := TrailOf(c, cfg, passes), Loop(c, cfg, passes);
      var b, o := Delivered(t, r.cfg, e), Step(r.client, r.cfg, e);
      b.Some? && b.value.value != 0 ==>
        (e.pulse.value.ntpOk ==> |WholeWrites(o.injected)| >= 1 && WholeWrites(o.injected)[0] == b.value.value) &&
        (!e.pulse.value.ntpOk ==> !o.ok)
  {
    hide Step, WholeWrites;
    VotesAreWritten(abs, file, passes);
    var c, cfg := Initialized(abs), Apply(Defaults, file);
    var t, r := TrailOf(c, cfg, passes), Loop(c, cfg, passes);
    DeliveredIsPending(t, r.cfg, e);
    StepWrites(r.client, r.cfg, e);
  }
}
