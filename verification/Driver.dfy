/** The gps-pps-io driver: its single-opener protocol and the clock offsets it injects. */
module Driver {
  import opened SystemClock
  import opened Arith

  // ----- single opener

  /** A process that calls open or close. */
  type Pid = int

  /** The atomic counter; the processes whose open succeeded; those between a failed test and their undo. */
  datatype State = State(available: int, holders: set<Pid>, undoing: set<Pid>)

  const Loaded := State(1, {}, {})

  /** An atomic action of a process. */
  datatype Action = DecAndTest(pid: Pid) | Undo(pid: Pid) | Release(pid: Pid)

  /** The action is the next one in its process's code. */
  predicate Enabled(s: State, a: Action) {
    match a
    case DecAndTest(p) => p !in s.holders && p !in s.undoing
    case Undo(p) => p in s.undoing
    case Release(p) => p in s.holders
  }

  /** The effect of an action; one that is not enabled does not happen. */
  function Act(s: State, a: Action): State {
    if !Enabled(s, a) then s
    else match a
      case DecAndTest(p) =>
        if s.available - 1 == 0 then State(s.available - 1, s.holders + {p}, s.undoing)
        else State(s.available - 1, s.holders, s.undoing + {p})
      case Undo(p) => State(s.available + 1, s.holders, s.undoing - {p})
      case Release(p) => State(s.available + 1, s.holders - {p}, s.undoing)
  }

  function Run(actions: seq<Action>): State {
    if actions == [] then Loaded else Act(Run(actions[..|actions| - 1]), actions[|actions| - 1])
  }

  ghost predicate Exclusive(s: State) {
    && s.available == 1 - |s.holders| - |s.undoing|
    && |s.holders| <= 1
    && s.holders !! s.undoing
  }

  lemma ActIsExclusive(s: State, a: Action)
    requires Exclusive(s)
    ensures Exclusive(Act(s, a))
  {
    if Enabled(s, a) {
      match a
      case DecAndTest(p) =>
      case Undo(p) => assert |s.undoing - {p}| == |s.undoing| - 1;
      case Release(p) => assert |s.holders - {p}| == |s.holders| - 1;
    }
  }

  /** For every interleaving of any number of processes, the counter is exact and at most one of them holds the device. */
  lemma {:induction false} AtMostOneHolder(actions: seq<Action>)
    ensures Exclusive(Run(actions))
    ensures forall p, q :: p in Run(actions).holders && q in Run(actions).holders ==> p == q
  {
    if actions != [] {
      AtMostOneHolder(actions[..|actions| - 1]);
      ActIsExclusive(Run(actions[..|actions| - 1]), actions[|actions| - 1]);
    }
    var h := Run(actions).holders;
    forall p, q | p in h && q in h
      ensures p == q
    {
      assert |h - {p}| == |h| - 1 == 0;
      assert q !in h - {p};
    }
  }

  /** At any time an open succeeds exactly if nobody holds the device and no failed open still has its undo to make. */
  lemma OpenSucceedsIffQuiescent(actions: seq<Action>, p: Pid)
    requires Enabled(Run(actions), DecAndTest(p))
    ensures var s := Run(actions);
      p in Act(s, DecAndTest(p)).holders <==> s.holders == {} && s.undoing == {}
  {
    AtMostOneHolder(actions);
  }

  /** So an open can fail although nobody holds the device: here process 2 has not undone its own failed open yet. */
  lemma OpenCanFailOnFreeDevice()
    ensures var actions := [DecAndTest(1), DecAndTest(2), Release(1)];
      Run(actions).holders == {} && 3 !in Act(Run(actions), DecAndTest(3)).holders
  {
    var a1, a2 := [DecAndTest(1)], [DecAndTest(1), DecAndTest(2)];
    var a3 := a2 + [Release(1)];
    assert a1[..0] == [] && a2[..1] == a1 && a3[..2] == a2;
    assert Run(a1) == State(0, {1}, {});
    assert Run(a2) == State(-1, {1}, {2});
    assert Run(a3).holders == {} && Run(a3).available == 0;
    assert a3 == [DecAndTest(1), DecAndTest(2), Release(1)];
  }

  const EBUSY := 16

  /** The driver's counter with the calls that change it. */
  class PpsDevice {
    var driverAvailable: int
    ghost var state: State

    ghost predicate Valid()
      reads this
    {
      driverAvailable == state.available && Exclusive(state)
    }

    constructor ()
      ensures Valid() && state == Loaded
    {
      driverAvailable := 1;
      state := Loaded;
    }

    /** The kernel's `atomic_dec_and_test`, the first step of an open. */
    method AtomicDecAndTest(ghost pid: Pid) returns (isZero: bool)
      requires Valid() && Enabled(state, DecAndTest(pid))
      modifies this
      ensures Valid() && state == Act(old(state), DecAndTest(pid))
      ensures isZero <==> old(state).holders == {} && old(state).undoing == {}
      ensures if isZero then pid in state.holders else pid in state.undoing
    {
      ActIsExclusive(state, DecAndTest(pid));
      state := Act(state, DecAndTest(pid));
      driverAvailable := driverAvailable - 1;
      isZero := driverAvailable == 0;
    }

    /** The kernel's `atomic_inc`, as the undo of a failed open or as a release. */
    method AtomicInc(ghost a: Action)
      requires Valid() && Enabled(state, a) && !a.DecAndTest?
      modifies this
      ensures Valid() && state == Act(old(state), a)
    {
      ActIsExclusive(state, a);
      state := Act(state, a);
      driverAvailable := driverAvailable + 1;
    }

    /** `pps_open` without interleaving: it takes a free device or leaves everything as it was. */
    method Open(ghost pid: Pid) returns (rv: int)
      requires Valid() && Enabled(state, DecAndTest(pid))
      modifies this
      ensures Valid()
      ensures rv == 0 <==> old(state).holders == {} && old(state).undoing == {}
      ensures rv == 0 ==> state == State(0, {pid}, {})
      ensures rv != 0 ==> state == old(state)
    {
      var isZero := AtomicDecAndTest(pid);
      if !isZero {
        AtomicInc(Undo(pid));
        assert old(state).undoing + {pid} - {pid} == old(state).undoing;
        return -EBUSY;
      }
      return 0;
    }
  }

  // ----- clock offsets

  const NSECS_PER_SEC := 1000000000

  /** C's 32-bit int. */
  predicate FitsInt(x: int) {
    -0x8000_0000 <= x < 0x8000_0000
  }

  function WrapInt(x: int): (r: int)
    ensures FitsInt(r)
    ensures FitsInt(x) ==> r == x
  {
    (x + 0x8000_0000) % 0x1_0000_0000 - 0x8000_0000
  }

  datatype Timespec = Timespec(sec: int, nsec: int)

  /** A microsecond offset as `pps_i_write` turns it into a `timespec`. */
  function MicrosecondOffset(value: int): Timespec {
    var frac := WrapInt(value * 1000);
    if frac < 0 then Timespec(-1, NSECS_PER_SEC + frac) else Timespec(0, frac)
  }

  /** The kernel takes a `timespec` only with a normalised fraction. */
  ghost predicate Normalised(t: Timespec) {
    0 <= t.nsec < NSECS_PER_SEC
  }

  ghost function Nanoseconds(t: Timespec): int {
    t.sec * NSECS_PER_SEC + t.nsec
  }

  /** The offset injected is normalised and is the one requested exactly for requests in [-10^6, 10^6). */
  lemma OffsetIsExact(value: int)
    requires FitsInt(value)
    ensures Normalised(MicrosecondOffset(value)) && Nanoseconds(MicrosecondOffset(value)) == value * 1000
      <==> -1000000 <= value < 1000000
  {
  }

  /**
   * The offset that the client requests after an external change, for any reading of the fraction of a second, fits
   * the driver's arithmetic, is injected exactly, and takes the clock to the nearest whole second.
   */
  lemma FractionIsCancelled(usec: int)
    requires 0 <= usec < 1000000
    ensures var request := -Fraction(usec);
      && FitsInt(request * 1000)
      && Normalised(MicrosecondOffset(request))
      && Nanoseconds(MicrosecondOffset(request)) == request * 1000
      && (usec + request) % 1000000 == 0
      && forall other :: (usec + other) % 1000000 == 0 ==> Abs(request) <= Abs(other)
  {
    var request := -Fraction(usec);
    OffsetIsExact(request);
    forall other | (usec + other) % 1000000 == 0
      ensures Abs(request) <= Abs(other)
    {
      assert usec + other == 1000000 * ((usec + other) / 1000000);
    }
  }
}
