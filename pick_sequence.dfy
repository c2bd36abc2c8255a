// The control loop of the pick-and-place example: a gantry (X and a mirrored
// Y1/Y2 pair) and arm joint J1 are stepped by the interpolator while a state
// machine walks IDLE -> MOVE_TO_PICK -> ARM_DOWN -> GRIP_CLOSE -> ARM_UP -> DONE,
// one state-machine step per loop pass.

module PickSequence {
  import opened MotorApi
  import opened Interpolator

  // Axis and I/O indices of the example's configuration.
  const AxisGantryX: int := 0
  const AxisGantryY1: int := 1
  const AxisGantryY2: int := 2
  const AxisArmJ1: int := 3
  const AxisIo1: int := 9

  // Targets and speeds of the sequence, in user units (um, mdeg) per second.
  const PickX: real := 100000.0
  const PickY: real := 200000.0
  const GantrySpeed: real := 50000.0
  const ArmDownJ1: real := 90000.0
  const ArmUpJ1: real := 0.0
  const ArmSpeed: real := 10000.0

  /** The idle dwell: IDLE is left once the pass counter exceeds it. */
  const DwellTicks: int := 100

  /** The states of `app_state_t`, in declaration order. */
  datatype AppState = Idle | MoveToPick | ArmDown | GripClose | ArmUp | MoveToPlace | Done

  /** The enumerator value of a state. */
  function Ordinal(s: AppState): nat
  {
    match s
    case Idle => 0
    case MoveToPick => 1
    case ArmDown => 2
    case GripClose => 3
    case ArmUp => 4
    case MoveToPlace => 5
    case Done => 6
  }

  /** The state the sequence moves to when a state's exit condition holds;
      DONE is terminal and MOVE_TO_PLACE has no handler, so both stay. */
  function Successor(s: AppState): AppState
  {
    match s
    case Idle => MoveToPick
    case MoveToPick => ArmDown
    case ArmDown => GripClose
    case GripClose => ArmUp
    case ArmUp => Done
    case MoveToPlace => MoveToPlace
    case Done => Done
  }

  /** The loop's variables: the state, the pass counter `tick`, the tracked
      positions of X, Y1 and J1, and the stop flag `g_stop`. */
  datatype Snapshot = Snapshot(state: AppState, tick: int, x: real, y: real, j1: real, stop: bool)

  /** The variables when the loop is entered. */
  const Initial: Snapshot := Snapshot(Idle, 0, 0.0, 0.0, 0.0, false)

  /** What the environment contributes to one pass: the input words the
      exchange delivers, and whether a stop signal arrives during the pass. */
  datatype Cycle = Cycle(frame: map<int, bv32>, interrupted: bool)

  datatype PassResult = PassResult(next: Snapshot, effects: seq<Effect>)

  /** The body of the state-machine switch for one pass (before `tick++`). */
  function Dispatch(s: Snapshot, frame: map<int, bv32>): PassResult
  {
    match s.state
    case Idle =>
      PassResult(s.(state := if s.tick > DwellTicks then MoveToPick else Idle), [])
    case MoveToPick =>
      var mx := MoveStep(AxisGantryX, PickX, GantrySpeed, s.x);
      var my := MoveStep(AxisGantryY1, PickY, GantrySpeed, s.y);
      // the follower is driven from the mirror of Y1's position after Y1's step
      var m2 := MoveStep(AxisGantryY2, -PickY, GantrySpeed, -my.pos);
      PassResult(s.(state := if mx.arrived && my.arrived then ArmDown else MoveToPick, x := mx.pos, y := my.pos),
                 [mx.cmd, my.cmd, m2.cmd])
    case ArmDown =>
      var mj := MoveStep(AxisArmJ1, ArmDownJ1, ArmSpeed, s.j1);
      PassResult(s.(state := if mj.arrived then GripClose else ArmDown, j1 := mj.pos), [mj.cmd])
    case GripClose =>
      var word := InputWord(frame, AxisIo1);
      PassResult(s.(state := if word & 1 != 0 then ArmUp else GripClose),
                 [OutputSet(AxisIo1, 1), InputRead(AxisIo1)])
    case ArmUp =>
      var mj := MoveStep(AxisArmJ1, ArmUpJ1, ArmSpeed, s.j1);
      PassResult(s.(state := if mj.arrived then Done else ArmUp, j1 := mj.pos), [mj.cmd])
    case MoveToPlace =>
      PassResult(s, [])
    case Done =>
      PassResult(s.(stop := true), [])
  }

  /** One loop pass: the exchange, the state-machine step, then `tick++`. */
  function Pass(s: Snapshot, frame: map<int, bv32>): PassResult
  {
    var d := Dispatch(s, frame);
    PassResult(d.next.(tick := s.tick + 1), [Exchanged] + d.effects)
  }

  /** Every pass exchanges first and counts itself in `tick`; the state only
      moves forward along the one edge out of it, MOVE_TO_PLACE is entered by
      no edge, and the stop flag is raised by DONE and by nothing else. */
  lemma PassForward(s: Snapshot, frame: map<int, bv32>)
    ensures var r := Pass(s, frame);
            && r.next.tick == s.tick + 1
            && (r.next.state == s.state || r.next.state == Successor(s.state))
            && Ordinal(s.state) <= Ordinal(r.next.state)
            && (r.next.state == MoveToPlace <==> s.state == MoveToPlace)
            && (r.next.stop <==> s.stop || s.state == Done)
            && 1 <= |r.effects| && r.effects[0] == Exchanged
  {
  }

  /** A pass together with a signal that may arrive during it. */
  function After(s: Snapshot, c: Cycle): Snapshot
  {
    var n := Pass(s, c.frame).next;
    n.(stop := n.stop || c.interrupted)
  }

  /** The library calls one pass makes. */
  function PassEffects(s: Snapshot, c: Cycle): seq<Effect>
  {
    Pass(s, c.frame).effects
  }

  /** The variables after a loop whose passes are `step` has consumed the
      first `n` cycles of `env`; the loop head stops consuming once the stop
      flag is up. */
  function RunWith(step: (Snapshot, Cycle) -> Snapshot, s: Snapshot, env: seq<Cycle>, n: nat): Snapshot
    requires n <= |env|
  {
    if n == 0 then s
    else
      var p := RunWith(step, s, env, n - 1);
      if p.stop then p else step(p, env[n - 1])
  }

  /** The calls such a loop makes, `out` giving each pass's calls. */
  function TraceWith(step: (Snapshot, Cycle) -> Snapshot, out: (Snapshot, Cycle) -> seq<Effect>,
                     s: Snapshot, env: seq<Cycle>, n: nat): seq<Effect>
    requires n <= |env|
  {
    if n == 0 then []
    else
      var p := RunWith(step, s, env, n - 1);
      TraceWith(step, out, s, env, n - 1) + if p.stop then [] else out(p, env[n - 1])
  }

  /** How many passes such a loop runs over the first `n` cycles. */
  function CountWith(step: (Snapshot, Cycle) -> Snapshot, s: Snapshot, env: seq<Cycle>, n: nat): nat
    requires n <= |env|
  {
    if n == 0 then 0
    else
      var p := RunWith(step, s, env, n - 1);
      CountWith(step, s, env, n - 1) + if p.stop then 0 else 1
  }

  /** The variables after the pick-and-place loop has consumed the first
      `n` cycles of `env`. */
  function Run(s: Snapshot, env: seq<Cycle>, n: nat): Snapshot
    requires n <= |env|
  {
    RunWith(After, s, env, n)
  }

  /** The library calls the passes over the first `n` cycles make. */
  function RunTrace(s: Snapshot, env: seq<Cycle>, n: nat): seq<Effect>
    requires n <= |env|
  {
    TraceWith(After, PassEffects, s, env, n)
  }

  /** How many passes the loop runs over the first `n` cycles. */
  function PassCount(s: Snapshot, env: seq<Cycle>, n: nat): nat
    requires n <= |env|
  {
    CountWith(After, s, env, n)
  }

  /** No signal arrives during the first `n` cycles. */
  predicate Uninterrupted(env: seq<Cycle>, n: nat)
    requires n <= |env|
  {
    forall k :: 0 <= k < n ==> !env[k].interrupted
  }

  // ---------------------------------------------------------------------
  // Properties of whole runs.

  /** Along any run the state never moves backwards, `tick` counts the passes
      exactly, a stopped loop runs no further pass, and MOVE_TO_PLACE is
      reached only from itself. */
  lemma {:induction false} RunForward(s: Snapshot, env: seq<Cycle>, n: nat)
    requires n <= |env|
    ensures Ordinal(s.state) <= Ordinal(Run(s, env, n).state)
    ensures Run(s, env, n).tick == s.tick + PassCount(s, env, n)
    ensures PassCount(s, env, n) <= n
    ensures s.stop ==> Run(s, env, n) == s && PassCount(s, env, n) == 0
    ensures Run(s, env, n).state == MoveToPlace <==> s.state == MoveToPlace
  {
    if n > 0 {
      RunForward(s, env, n - 1);
      PassForward(Run(s, env, n - 1), env[n - 1].frame);
    }
  }

  /** The sequence started from the loop's initial variables never reaches
      the declared MOVE_TO_PLACE state. */
  lemma MoveToPlaceUnreachable(env: seq<Cycle>, n: nat)
    requires n <= |env|
    ensures Run(Initial, env, n).state != MoveToPlace
  {
    RunForward(Initial, env, n);
  }

  /** Once the loop has stopped, further cycles change nothing and run no
      pass, whatever its passes do. */
  lemma {:induction false} StoppedRunIsFinal(step: (Snapshot, Cycle) -> Snapshot, s: Snapshot,
                                             env: seq<Cycle>, i: nat, n: nat)
    requires i <= n <= |env| && RunWith(step, s, env, i).stop
    ensures RunWith(step, s, env, n) == RunWith(step, s, env, i)
    ensures CountWith(step, s, env, n) == CountWith(step, s, env, i)
  {
    if i < n {
      StoppedRunIsFinal(step, s, env, i, n - 1);
    }
  }

  /** Once the loop has stopped, further cycles make no library call. */
  lemma {:induction false} StoppedTraceIsFinal(step: (Snapshot, Cycle) -> Snapshot,
                                               out: (Snapshot, Cycle) -> seq<Effect>,
                                               s: Snapshot, env: seq<Cycle>, i: nat, n: nat)
    requires i <= n <= |env| && RunWith(step, s, env, i).stop
    ensures TraceWith(step, out, s, env, n) == TraceWith(step, out, s, env, i)
  {
    if i < n {
      StoppedTraceIsFinal(step, out, s, env, i, n - 1);
      StoppedRunIsFinal(step, s, env, i, n - 1);
    }
  }

  /** The idle dwell: during the first 101 passes the sequence stays IDLE
      (tick is at most 100 when each of them tests it), and without a signal
      every one of them runs. */
  lemma {:induction false} IdleDwell(env: seq<Cycle>, n: nat)
    requires n <= |env| && n <= DwellTicks + 1
    ensures Run(Initial, env, n).state == Idle
    ensures Run(Initial, env, n).tick <= n
    ensures Uninterrupted(env, n) ==> !Run(Initial, env, n).stop && Run(Initial, env, n).tick == n
  {
    if n > 0 {
      IdleDwell(env, n - 1);
      PassForward(Run(Initial, env, n - 1), env[n - 1].frame);
    }
  }

  /** IDLE is left on the 102nd pass, the one that sees tick == 101. */
  lemma LeavesIdleOnPass102(env: seq<Cycle>)
    requires DwellTicks + 2 <= |env| && Uninterrupted(env, DwellTicks + 1)
    ensures Run(Initial, env, DwellTicks + 2).state == MoveToPick
    ensures Run(Initial, env, DwellTicks + 2).tick == DwellTicks + 2
  {
    IdleDwell(env, DwellTicks + 1);
  }

  // ---------------------------------------------------------------------
  // The gates of the individual states.

  /** MOVE_TO_PICK: X and Y1 each take one interpolator step, the state
      advances exactly when both report arrival (Y2's report is ignored), and
      the command Y2 receives is the mirror image of the one Y1 will receive
      on the next pass. */
  lemma MoveToPickGate(s: Snapshot, frame: map<int, bv32>)
    requires s.state == MoveToPick
    ensures var r := Pass(s, frame);
            var mx := MoveStep(AxisGantryX, PickX, GantrySpeed, s.x);
            var my := MoveStep(AxisGantryY1, PickY, GantrySpeed, s.y);
            && r.next == s.(state := r.next.state, tick := s.tick + 1, x := mx.pos, y := my.pos)
            && (r.next.state == ArmDown <==> mx.arrived && my.arrived)
            && |r.effects| == 4
            && r.effects[..3] == [Exchanged, mx.cmd, my.cmd]
            && r.effects[3] == Mirror(MoveStep(AxisGantryY1, PickY, GantrySpeed, my.pos).cmd, AxisGantryY2)
  {
    var my := MoveStep(AxisGantryY1, PickY, GantrySpeed, s.y);
    MirrorSymmetry(AxisGantryY1, AxisGantryY2, PickY, GantrySpeed, my.pos);
  }

  /** Y2 is driven from Y1's position after Y1's step, not sent the opposite
      of Y1's command: on the pass that moves Y1 from 199600 to 199800, Y1
      gets an enabled forward step while Y2 is already stopped. */
  lemma FollowerStopsOnePassEarly(s: Snapshot, frame: map<int, bv32>)
    requires s.state == MoveToPick && s.y == 199600.0
    ensures var r := Pass(s, frame);
            r.next.y == 199800.0
            && r.effects[2] == Commanded(AxisGantryY1, true, 1, 200)
            && r.effects[3] == Stop(AxisGantryY2)
  {
    MoveToPickGate(s, frame);
    assert StepSize(GantrySpeed) == 200.0;
    assert Trunc(200.0) == 200;
  }

  /** ARM_DOWN and ARM_UP step J1 alone and advance exactly when it arrives
      at 90000 and at 0;
      GRIP_CLOSE writes output mask 0x0001 on every pass and advances exactly
      when input bit 0 is set. */
  lemma ArmAndGripperGates(s: Snapshot, frame: map<int, bv32>)
    ensures var r := Pass(s, frame);
            s.state == ArmDown ==>
              var mj := MoveStep(AxisArmJ1, ArmDownJ1, ArmSpeed, s.j1);
              r.effects == [Exchanged, mj.cmd]
              && r.next == s.(state := r.next.state, tick := s.tick + 1, j1 := mj.pos)
              && (r.next.state == GripClose <==> mj.arrived)
    ensures var r := Pass(s, frame);
            s.state == GripClose ==>
              r.effects == [Exchanged, OutputSet(AxisIo1, 1), InputRead(AxisIo1)]
              && r.next == s.(tick := s.tick + 1, state := r.next.state)
              && (r.next.state == ArmUp <==> InputWord(frame, AxisIo1) & 1 == 1)
    ensures var r := Pass(s, frame);
            s.state == ArmUp ==>
              var mj := MoveStep(AxisArmJ1, ArmUpJ1, ArmSpeed, s.j1);
              r.effects == [Exchanged, mj.cmd]
              && r.next == s.(state := r.next.state, tick := s.tick + 1, j1 := mj.pos)
              && (r.next.state == Done <==> mj.arrived)
  {
    if s.state == GripClose {
      var w := InputWord(frame, AxisIo1);
      assert w & 1 != 0 <==> w & 1 == 1 by {
        BitZeroIsBit(w);
      }
    }
  }

  lemma BitZeroIsBit(w: bv32)
    ensures w & 1 == 0 || w & 1 == 1
  {
  }

  // ---------------------------------------------------------------------
  // The loop itself.

  /** One pass of the `while (!g_stop)` loop over main's variables. */
  method LoopPass(h: Handle, state: AppState, tick: int, posGantryX: Position, posGantryY: Position,
                  posArmJ1: Position, stop: bool, c: Cycle, ghost before: Snapshot)
    returns (state': AppState, tick': int, stop': bool)
    requires posGantryX != posGantryY && posGantryX != posArmJ1 && posGantryY != posArmJ1
    requires before == Snapshot(state, tick, posGantryX.value, posGantryY.value, posArmJ1.value, stop)
    modifies h, posGantryX, posGantryY, posArmJ1
    ensures Snapshot(state', tick', posGantryX.value, posGantryY.value, posArmJ1.value, stop') == After(before, c)
    ensures h.trace == old(h.trace) + Pass(before, c.frame).effects
  {
    h.RunOnce(c.frame);
    state', stop' := state, stop;

    match state {
      case Idle =>
        if tick > DwellTicks {
          state' := MoveToPick;
        }
      case MoveToPick =>
        var doneX := MoveAxis(h, AxisGantryX, PickX, GantrySpeed, posGantryX);
        var doneY1 := MoveAxis(h, AxisGantryY1, PickY, GantrySpeed, posGantryY);
        // Y2 follows Y1 mirrored: its position is recomputed from Y1's every pass
        var dummyY2 := new Position(-posGantryY.value);
        var _ := MoveAxis(h, AxisGantryY2, -PickY, GantrySpeed, dummyY2);
        if doneX && doneY1 {
          state' := ArmDown;
        }
      case ArmDown =>
        var arrived := MoveAxis(h, AxisArmJ1, ArmDownJ1, ArmSpeed, posArmJ1);
        if arrived {
          state' := GripClose;
        }
      case GripClose =>
        h.SetIoOutput(AxisIo1, 1);
        var ioIn := h.GetIoInput(AxisIo1);
        if ioIn & 1 != 0 {
          state' := ArmUp;
        }
      case ArmUp =>
        var arrived := MoveAxis(h, AxisArmJ1, ArmUpJ1, ArmSpeed, posArmJ1);
        if arrived {
          state' := Done;
        }
      case MoveToPlace =>
      case Done =>
        stop' := true;
    }

    tick' := tick + 1;
    // a signal arriving during the pass raises the flag the loop head polls
    if c.interrupted {
      stop' := true;
    }
  }

  /** Pass i + 1 of the loop, stated against the run over the first i cycles. */
  method RunPass(h: Handle, state: AppState, tick: int, posGantryX: Position, posGantryY: Position,
                 posArmJ1: Position, stop: bool, env: seq<Cycle>, i: nat, ghost init: Snapshot,
                 ghost base: seq<Effect>)
    returns (state': AppState, tick': int, stop': bool)
    requires posGantryX != posGantryY && posGantryX != posArmJ1 && posGantryY != posArmJ1
    requires i < |env| && Snapshot(state, tick, posGantryX.value, posGantryY.value, posArmJ1.value, stop) == Run(init, env, i)
    requires !stop && h.trace == base + RunTrace(init, env, i)
    modifies h, posGantryX, posGantryY, posArmJ1
    ensures Snapshot(state', tick', posGantryX.value, posGantryY.value, posArmJ1.value, stop') == Run(init, env, i + 1)
    ensures h.trace == base + RunTrace(init, env, i + 1)
  {
    ghost var before := Run(init, env, i);
    ghost var done := RunTrace(init, env, i);
    ghost var effects := Pass(before, env[i].frame).effects;
    state', tick', stop' := LoopPass(h, state, tick, posGantryX, posGantryY, posArmJ1, stop, env[i], before);
    assert h.trace == base + (done + effects);
  }

  /** The variables at the first loop test: the initial ones, with the stop
      flag already up when a signal arrived before the loop was entered. */
  function Start(stopBeforeLoop: bool): Snapshot
  {
    Initial.(stop := stopBeforeLoop)
  }

  /** The `while (!g_stop)` loop: passes run until the stop flag is up or the
      environment's cycles are used up. */
  method ControlLoop(h: Handle, stopBeforeLoop: bool, env: seq<Cycle>) returns (last: Snapshot)
    modifies h
    ensures last == Run(Start(stopBeforeLoop), env, |env|)
    ensures h.trace == old(h.trace) + RunTrace(Start(stopBeforeLoop), env, |env|)
  {
    var state := Idle;
    var tick := 0;
    var posGantryX := new Position(0.0);
    var posGantryY := new Position(0.0);
    var posArmJ1 := new Position(0.0);
    var stop := stopBeforeLoop;
    ghost var init := Start(stopBeforeLoop);

    var i := 0;
    while !stop && i < |env|
      invariant 0 <= i <= |env|
      invariant Snapshot(state, tick, posGantryX.value, posGantryY.value, posArmJ1.value, stop) == Run(init, env, i)
      invariant h.trace == old(h.trace) + RunTrace(init, env, i)
    {
      state, tick, stop := RunPass(h, state, tick, posGantryX, posGantryY, posArmJ1, stop, env, i, init, old(h.trace));
      i := i + 1;
    }
    if stop {
      StoppedRunIsFinal(After, init, env, i, |env|);
      StoppedTraceIsFinal(After, PassEffects, init, env, i, |env|);
    }
    last := Snapshot(state, tick, posGantryX.value, posGantryY.value, posArmJ1.value, stop);
  }

  /** `main` from the point the library handle has been requested: a null
      handle (configuration load failed) exits with status 1; otherwise the
      errors are cleared, the loop runs, and the handle is destroyed.
      `stopBeforeLoop` says whether a signal arrived before the first loop test. */
  method PickAndPlace(h: Handle?, stopBeforeLoop: bool, env: seq<Cycle>) returns (exitCode: int, last: Snapshot)
    modifies h
    ensures h == null ==> exitCode == 1 && last == Initial
    ensures h != null ==>
              exitCode == 0 && last == Run(Start(stopBeforeLoop), env, |env|)
              && h.trace == old(h.trace) + [Cleared(-1)] + RunTrace(Start(stopBeforeLoop), env, |env|) + [Destroyed]
  {
    if h == null {
      return 1, Initial;
    }
    h.ClearError(-1);
    last := ControlLoop(h, stopBeforeLoop, env);
    h.Destroy();
    exitCode := 0;
  }
}
