// The incremental interpolator `move_axis` of the pick-and-place example:
// once per cycle it either snaps the tracked position onto the target and
// stops the axis, or advances it by exactly one velocity step.

module Interpolator {
  import opened MotorApi

  /** The cycle time the interpolator assumes, in seconds. */
  const Dt: real := 0.004

  /** The largest distance an axis may cover in one cycle at `maxVel`. */
  function StepSize(maxVel: real): real
  {
    maxVel * Dt
  }

  function Abs(x: real): real
  {
    if x < 0.0 then -x else x
  }

  /** `p` lies on the closed segment between `a` and `b`. */
  predicate Between(a: real, p: real, b: real)
  {
    (a <= p <= b) || (b <= p <= a)
  }

  /** C's conversion of a non-integral value to `int`: truncation toward zero. */
  function Trunc(x: real): (r: int)
    ensures 0.0 <= x ==> 0 <= r && r as real <= x < r as real + 1.0
    ensures x < 0.0 ==> r <= 0 && x <= r as real && r as real - 1.0 < x
  {
    if x >= 0.0 then x.Floor else -((-x).Floor)
  }

  /** The command that halts an axis. */
  function Stop(axis: int): Effect
  {
    Commanded(axis, false, 0, 0)
  }

  /** What one call of the interpolator does: the new tracked position, the
      command it issues and whether it reports arrival (1 in the source). */
  datatype Outcome = Outcome(pos: real, cmd: Effect, arrived: bool)

  function MoveStep(axis: int, target: real, maxVel: real, cur: real): (r: Outcome)
    // arrival exactly when the remaining distance fits into one step, and then
    // the position is the target itself and the axis is stopped
    ensures r.arrived <==> Abs(target - cur) <= StepSize(maxVel)
    ensures r.arrived ==> r.pos == target && r.cmd == Stop(axis)
    // otherwise one enabled step of the truncated step size, in the direction
    // of the sign of the remaining distance
    ensures !r.arrived ==> (r.cmd.Commanded? && r.cmd.axis == axis && r.cmd.enable
                            && r.cmd.dir == (if target - cur > 0.0 then 1 else -1)
                            && r.cmd.magnitude == Trunc(StepSize(maxVel))
                            && r.pos == cur + r.cmd.dir as real * StepSize(maxVel))
  {
    var diff := target - cur;
    var step := maxVel * Dt;
    if Abs(diff) <= step then
      Outcome(target, Stop(axis), true)
    else
      var dir := if diff > 0.0 then 1 else -1;
      Outcome(cur + dir as real * step, Commanded(axis, true, dir, Trunc(step)), false)
  }

  /** No overshoot: with a positive velocity limit the new position lies
      between the old one and the target, the distance never grows, and a
      step that does not arrive points at the target and shortens the
      distance by exactly one step. */
  lemma NoOvershoot(axis: int, target: real, maxVel: real, cur: real)
    requires 0.0 < maxVel
    ensures var r := MoveStep(axis, target, maxVel, cur);
            Between(cur, r.pos, target)
            && Abs(target - r.pos) <= Abs(target - cur)
            && (!r.arrived ==>
                  Abs(target - r.pos) == Abs(target - cur) - StepSize(maxVel)
                  && r.cmd.dir == (if target > cur then 1 else -1))
  {
  }

  /** The tracked position `move_axis` updates through its pointer argument. */
  class Position {
    var value: real

    constructor (v: real)
      ensures value == v
    {
      value := v;
    }
  }

  /** One call of `move_axis(h, axis, target, maxVel, cur)`. */
  method MoveAxis(h: Handle, axis: int, target: real, maxVel: real, cur: Position)
    returns (arrived: bool)
    modifies h, cur
    ensures var r := MoveStep(axis, target, maxVel, old(cur.value));
            cur.value == r.pos && arrived == r.arrived && h.trace == old(h.trace) + [r.cmd]
    ensures h.inputs == old(h.inputs)
  {
    var diff := target - cur.value;
    var step := maxVel * Dt;
    if Abs(diff) <= step {
      cur.value := target;
      h.SetAxisCommand(axis, false, 0, 0);
      return true;
    }
    var dir := if diff > 0.0 then 1 else -1;
    cur.value := cur.value + dir as real * step;
    h.SetAxisCommand(axis, true, dir, Trunc(step));
    return false;
  }

  /** The command a mirrored follower receives for a leader's command. */
  function Mirror(e: Effect, follower: int): Effect
  {
    if e.Commanded? then Commanded(follower, e.enable, -e.dir, e.magnitude) else e
  }

  /** Driving the negated position toward the negated target is the mirror
      image of driving the position toward the target. */
  lemma MirrorSymmetry(leader: int, follower: int, target: real, maxVel: real, cur: real)
    requires 0.0 <= maxVel
    ensures var r := MoveStep(leader, target, maxVel, cur);
            MoveStep(follower, -target, maxVel, -cur) == Outcome(-r.pos, Mirror(r.cmd, follower), r.arrived)
  {
    var r := MoveStep(leader, target, maxVel, cur);
    var m := MoveStep(follower, -target, maxVel, -cur);
    assert Abs(-target - -cur) == Abs(target - cur);
    if !r.arrived {
      assert target - cur != 0.0;
      assert m.cmd.dir == -r.cmd.dir;
    }
  }

  /** A call that arrives leaves nothing to do: calling again with the same
      target keeps the position, stops the axis again and reports arrival. */
  lemma ArrivalIsStable(axis: int, target: real, maxVel: real, cur: real)
    requires MoveStep(axis, target, maxVel, cur).arrived
    ensures var again := MoveStep(axis, target, maxVel, MoveStep(axis, target, maxVel, cur).pos);
            again == Outcome(target, Stop(axis), true)
  {
    assert 0.0 <= StepSize(maxVel);
  }

  // ---------------------------------------------------------------------
  // Repeated calls with a fixed target, as the sequence loop makes them.

  /** The tracked position after `n` calls starting from `start`. */
  function PosAfter(axis: int, target: real, maxVel: real, start: real, n: nat): real
  {
    if n == 0 then start else MoveStep(axis, target, maxVel, PosAfter(axis, target, maxVel, start, n - 1)).pos
  }

  /** The outcome of call number `k + 1`. */
  function CallOutcome(axis: int, target: real, maxVel: real, start: real, k: nat): Outcome
  {
    MoveStep(axis, target, maxVel, PosAfter(axis, target, maxVel, start, k))
  }

  /** Smallest integer not below `x`. */
  function Ceil(x: real): (c: int)
    ensures c as real - 1.0 < x <= c as real
  {
    -((-x).Floor)
  }

  /** The call on which the interpolator first reports arrival:
      max(1, ceil(|target - start| / step)). */
  function CallsToArrive(target: real, maxVel: real, start: real): (n: nat)
    requires 0.0 < maxVel
  {
    var q := Abs(target - start) / StepSize(maxVel);
    if q <= 1.0 then 1 else Ceil(q)
  }

  /** The distance `k` steps of size `st` cover, as repeated addition. */
  function Steps(k: nat, st: real): real
  {
    if k == 0 then 0.0 else Steps(k - 1, st) + st
  }

  lemma {:induction false} StepsIsProduct(k: nat, st: real)
    ensures Steps(k, st) == k as real * st
  {
    if k > 0 {
      StepsIsProduct(k - 1, st);
    }
  }

  lemma {:induction false} StepsMonotone(j: nat, k: nat, st: real)
    requires j <= k && 0.0 < st
    ensures Steps(j, st) <= Steps(k, st)
    ensures j < k ==> Steps(j, st) < Steps(k, st)
  {
    if j < k {
      StepsMonotone(j, k - 1, st);
    }
  }

  /** The step bracket behind CallsToArrive: the distance exceeds the first
      n - 1 steps and fits into n steps. */
  lemma CallsToArriveBounds(target: real, maxVel: real, start: real)
    requires 0.0 < maxVel
    ensures var n := CallsToArrive(target, maxVel, start);
            1 <= n && (n == 1 || Steps(n - 1, StepSize(maxVel)) < Abs(target - start))
            && Abs(target - start) <= Steps(n, StepSize(maxVel))
  {
    var st := StepSize(maxVel);
    var d := Abs(target - start);
    var q := d / st;
    var n := CallsToArrive(target, maxVel, start);
    QuotientBracket(d, st, n as real);
    StepsIsProduct(n, st);
    if q > 1.0 {
      assert n >= 2;
      StepsIsProduct(n - 1, st);
      QuotientBracket(d, st, (n - 1) as real);
    }
  }

  /** Comparing a distance with a whole number of steps is comparing its
      quotient by the step with that number. */
  lemma QuotientBracket(d: real, st: real, m: real)
    requires 0.0 < st
    ensures d / st <= m <==> d <= m * st
    ensures m < d / st <==> m * st < d
  {
    var q := d / st;
    assert q * st == d;
    if q <= m {
      MulMonotone(q, m, st);
    } else {
      MulMonotone(m, q, st);
    }
  }

  lemma MulMonotone(a: real, b: real, c: real)
    requires a <= b && 0.0 < c
    ensures a * c <= b * c
    ensures a < b ==> a * c < b * c
  {
  }

  /** While no arrival is due, call k has moved the axis k whole steps toward
      the target without passing it. */
  lemma {:induction false} Moving(axis: int, target: real, maxVel: real, start: real, k: nat)
    requires 0.0 < maxVel
    requires k == 0 || Steps(k, StepSize(maxVel)) < Abs(target - start)
    ensures Abs(target - PosAfter(axis, target, maxVel, start, k)) == Abs(target - start) - Steps(k, StepSize(maxVel))
    ensures Between(start, PosAfter(axis, target, maxVel, start, k), target)
  {
    if k > 0 {
      var st := StepSize(maxVel);
      StepsMonotone(k - 1, k, st);
      Moving(axis, target, maxVel, start, k - 1);
    }
  }

  /** Once the tracked position is on target it stays there, and every further
      call stops the axis and reports arrival. */
  lemma {:induction false} StaysOnTarget(axis: int, target: real, maxVel: real, start: real, m: nat, j: nat)
    requires 0.0 <= maxVel
    requires PosAfter(axis, target, maxVel, start, m) == target
    ensures PosAfter(axis, target, maxVel, start, m + j) == target
    ensures CallOutcome(axis, target, maxVel, start, m + j) == Outcome(target, Stop(axis), true)
  {
    if j > 0 {
      StaysOnTarget(axis, target, maxVel, start, m, j - 1);
    }
  }

  /** Convergence: with a positive velocity limit the calls before number
      CallsToArrive all report "not arrived", that call reports arrival with
      the position exactly on target, and the position stays there. */
  lemma Convergence(axis: int, target: real, maxVel: real, start: real)
    requires 0.0 < maxVel
    ensures var n := CallsToArrive(target, maxVel, start);
            (forall k :: 0 <= k < n - 1 ==> !CallOutcome(axis, target, maxVel, start, k).arrived)
            && CallOutcome(axis, target, maxVel, start, n - 1).arrived
            && forall m :: n <= m ==> PosAfter(axis, target, maxVel, start, m) == target
  {
    var st := StepSize(maxVel);
    var n := CallsToArrive(target, maxVel, start);
    CallsToArriveBounds(target, maxVel, start);
    forall k | 0 <= k < n - 1
      ensures !CallOutcome(axis, target, maxVel, start, k).arrived
    {
      NotDue(axis, target, maxVel, start, k, n);
    }
    Moving(axis, target, maxVel, start, n - 1);
    assert CallOutcome(axis, target, maxVel, start, n - 1).arrived;
    forall m | n <= m
      ensures PosAfter(axis, target, maxVel, start, m) == target
    {
      StaysOnTarget(axis, target, maxVel, start, n, m - n);
    }
  }

  /** Call k + 1 with k + 1 < CallsToArrive does not arrive. */
  lemma NotDue(axis: int, target: real, maxVel: real, start: real, k: nat, n: nat)
    requires 0.0 < maxVel && n == CallsToArrive(target, maxVel, start)
    requires k < n - 1
    ensures Steps(k, StepSize(maxVel)) < Steps(k + 1, StepSize(maxVel)) < Abs(target - start)
    ensures !CallOutcome(axis, target, maxVel, start, k).arrived
  {
    var st := StepSize(maxVel);
    CallsToArriveBounds(target, maxVel, start);
    StepsMonotone(k + 1, n - 1, st);
    StepsMonotone(k, k + 1, st);
    Moving(axis, target, maxVel, start, k);
  }

  /** The gantry X axis of the example, 0 to 100000 at 50000 per second
      (200 per cycle), first reports arrival on call 500. */
  lemma GantryXArrivesOnCall500(axis: int)
    ensures CallsToArrive(100000.0, 50000.0, 0.0) == 500
    ensures forall k :: 0 <= k < 499 ==> !CallOutcome(axis, 100000.0, 50000.0, 0.0, k).arrived
    ensures CallOutcome(axis, 100000.0, 50000.0, 0.0, 499).arrived
    ensures PosAfter(axis, 100000.0, 50000.0, 0.0, 500) == 100000.0
  {
    assert StepSize(50000.0) == 200.0;
    assert Abs(100000.0 - 0.0) / 200.0 == 500.0;
    Convergence(axis, 100000.0, 50000.0, 0.0);
  }

  // ---------------------------------------------------------------------
  // The commanded motion summed over the calls.

  /** The signed distance a command asks the axis to move. */
  function Issued(e: Effect): int
  {
    if e.Commanded? then e.dir * e.magnitude else 0
  }

  /** The signed magnitudes of the first `n` commands, summed. */
  function MovedTotal(axis: int, target: real, maxVel: real, start: real, n: nat): int
  {
    if n == 0 then 0
    else MovedTotal(axis, target, maxVel, start, n - 1) + Issued(CallOutcome(axis, target, maxVel, start, n - 1).cmd)
  }

  /** A call before the arriving one commands one truncated step toward the
      target. */
  lemma IssuedWhileMoving(axis: int, target: real, maxVel: real, start: real, k: nat)
    requires 0.0 < maxVel
    requires k < CallsToArrive(target, maxVel, start) - 1
    ensures var t := Trunc(StepSize(maxVel));
            Issued(CallOutcome(axis, target, maxVel, start, k).cmd) == if target > start then t else -t
  {
    NotDue(axis, target, maxVel, start, k, CallsToArrive(target, maxVel, start));
    var p := PosAfter(axis, target, maxVel, start, k);
    Moving(axis, target, maxVel, start, k);
    var r := MoveStep(axis, target, maxVel, p);
    assert r.cmd.magnitude == Trunc(StepSize(maxVel));
    if target > start {
      assert target > p && r.cmd.dir == 1;
    } else {
      assert target <= p && r.cmd.dir == -1;
    }
  }

  lemma {:induction false} MovedTotalWhileMoving(axis: int, target: real, maxVel: real, start: real, k: nat)
    requires 0.0 < maxVel
    requires k < CallsToArrive(target, maxVel, start)
    ensures target > start ==> 0.0 <= MovedTotal(axis, target, maxVel, start, k) as real <= Steps(k, StepSize(maxVel))
    ensures target <= start ==> -Steps(k, StepSize(maxVel)) <= MovedTotal(axis, target, maxVel, start, k) as real <= 0.0
  {
    if k > 0 {
      var st := StepSize(maxVel);
      var t := Trunc(st);
      MovedTotalWhileMoving(axis, target, maxVel, start, k - 1);
      IssuedWhileMoving(axis, target, maxVel, start, k - 1);
      assert 0 <= t && t as real <= st;
    }
  }

  lemma {:induction false} MovedTotalAfterArrival(axis: int, target: real, maxVel: real, start: real, j: nat)
    requires 0.0 < maxVel
    ensures var n := CallsToArrive(target, maxVel, start);
            MovedTotal(axis, target, maxVel, start, n - 1 + j) == MovedTotal(axis, target, maxVel, start, n - 1)
  {
    var n := CallsToArrive(target, maxVel, start);
    if j > 0 {
      MovedTotalAfterArrival(axis, target, maxVel, start, j - 1);
      Convergence(axis, target, maxVel, start);
      if j - 1 == 0 {
        assert CallOutcome(axis, target, maxVel, start, n - 1).arrived;
      } else {
        StaysOnTarget(axis, target, maxVel, start, n, j - 2);
        assert n + (j - 2) == n - 1 + (j - 1);
      }
    }
  }

  /** No overshoot in the commands: since the arriving call stops the axis
      instead of sending the remainder, the summed signed magnitudes never
      exceed the distance from start to target, and never point away from it. */
  lemma CommandedNeverOvershoots(axis: int, target: real, maxVel: real, start: real, n: nat)
    requires 0.0 < maxVel
    ensures Abs(MovedTotal(axis, target, maxVel, start, n) as real) <= Abs(target - start)
    ensures 0 < MovedTotal(axis, target, maxVel, start, n) ==> start < target
    ensures MovedTotal(axis, target, maxVel, start, n) < 0 ==> target < start
  {
    var st := StepSize(maxVel);
    var c := CallsToArrive(target, maxVel, start);
    CallsToArriveBounds(target, maxVel, start);
    var k := if n < c then n else c - 1;
    if n >= c {
      MovedTotalAfterArrival(axis, target, maxVel, start, n - (c - 1));
    }
    assert MovedTotal(axis, target, maxVel, start, n) == MovedTotal(axis, target, maxVel, start, k);
    MovedTotalWhileMoving(axis, target, maxVel, start, k);
    if k > 0 {
      StepsMonotone(k, c - 1, st);
    }
  }
}
