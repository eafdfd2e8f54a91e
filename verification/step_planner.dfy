/** The arithmetic of moving the motor to a microstep position: the current position is the
    microstep counter MSCNT scaled down to the microstep resolution, one electrical cycle
    has four full steps, and the move goes forward or backward by a step count chosen from
    the difference to the target. */
module StepPlanner {
  import opened Bits

  /** MSCNT is a 10-bit counter: the register value masked with 0x3ff. */
  function Mscnt(reg: nat): (m: nat)
    ensures m == reg % 1024
  {
    Pow2Ten();
    BitAndLowMask(reg, 10);
    BitAnd(reg, 0x3ff)
  }

  lemma Pow2Ten()
    ensures Pow2(10) == 1024
  {
    assert Pow2(2) == 4;
    assert Pow2(4) == 16;
    assert Pow2(6) == 64;
    assert Pow2(8) == 256;
  }

  /** `256 >> s` is 2 to the power 8 - s for s up to 8. */
  lemma ShrFullSteps(s: nat)
    requires s <= 8
    ensures Shr(256, s) == Pow2(8 - s)
  {
    Pow2Add(8 - s, s);
    assert Pow2(8) == 256 by { Pow2Ten(); }
    DivModUnique(256, Pow2(s), Pow2(8 - s), 0);
  }

  /** The search for the shift of a resolution from shift s on: the first s' >= s with
      resolution == 256 >> s', and 7 when the search runs out, where the loop variable
      stops. */
  function ShiftFrom(resolution: int, s: nat): (shift: nat)
    requires s <= 7
    ensures s <= shift <= 7
    ensures shift < 7 ==> resolution == Shr(256, shift)
    ensures forall s' :: s <= s' < shift ==> resolution != Shr(256, s')
    decreases 7 - s
  {
    if s == 7 || resolution == Shr(256, s) then s else ShiftFrom(resolution, s + 1)
  }

  /** The shift of a microstep resolution. */
  function ShiftFor(resolution: int): (shift: nat)
    ensures shift <= 7
  {
    ShiftFrom(resolution, 0)
  }

  /** A resolution of 256 >> m for m <= 7 has shift m; any other resolution falls through
      to shift 7. */
  lemma ShiftForResolution(resolution: int)
    ensures forall m :: 0 <= m <= 7 && resolution == Shr(256, m) ==> ShiftFor(resolution) == m
    ensures (forall m :: 0 <= m <= 7 ==> resolution != Shr(256, m)) ==> ShiftFor(resolution) == 7
  {
    forall m | 0 <= m <= 7 && resolution == Shr(256, m)
      ensures ShiftFor(resolution) == m
    {
      var s := ShiftFor(resolution);
      if s < m {
        ShrFullSteps(s);
        ShrFullSteps(m);
        Pow2Add(8 - m, m - s);
        MulAtLeast(Pow2(8 - m), Pow2(m - s));
        Pow2Add(1, m - s - 1);
        assert Pow2(m - s) >= 2;
        MulMonotone(Pow2(8 - m), 2, Pow2(m - s));
        assert false;
      }
    }
  }

  /** The number of microsteps in one electrical cycle of four full steps at a shift. */
  function CycleLength(shift: nat): (cnt: nat)
    requires shift <= 7
    ensures cnt == Pow2(10 - shift) && cnt >= 8
  {
    Pow2Add(2, 8 - shift);
    Pow2Add(3, 7 - shift);
    assert Pow2(2) == 4 && Pow2(3) == 8;
    MulAtLeast(8, Pow2(7 - shift));
    4 * Pow2(8 - shift)
  }

  /** The current position within the cycle: MSCNT at the resolution's scale. */
  function Position(mscntReg: nat, resolution: int): (pos: nat)
    ensures pos < CycleLength(ShiftFor(resolution))
  {
    var shift := ShiftFor(resolution);
    var mscnt := Mscnt(mscntReg);
    Pow2Ten();
    ShrBelow(mscnt, shift, 10 - shift);
    Shr(mscnt, shift)
  }

  /** A move: the value written to the direction pin and the number of steps. */
  datatype Plan = Plan(dir: int, steps: int)

  /** The direction pin value that moves the counter forward. */
  function Forward(inverted: bool): int
  {
    if inverted then 0 else 1
  }

  function Flip(dir: int): int
  {
    if dir == 0 then 1 else 0
  }

  /** The planned move as a signed number of microsteps, positive forward. */
  function Displacement(p: Plan, inverted: bool): int
  {
    if p.dir == Forward(inverted) then p.steps else -p.steps
  }

  /** The move from the current position to target: the difference is taken as it is, or,
      when it exceeds half a cycle, the other way round the cycle; a negative count turns
      into the opposite direction. */
  function PlanMove(mscntReg: nat, target: int, resolution: int, inverted: bool): (p: Plan)
    ensures p.dir == 0 || p.dir == 1
    ensures p.steps >= 0
    ensures var pos, cnt := Position(mscntReg, resolution), CycleLength(ShiftFor(resolution));
      && (Displacement(p, inverted) == target - pos || Displacement(p, inverted) == target - pos - cnt)
      && (pos + Displacement(p, inverted)) % cnt == target % cnt
      && (p.steps == 0 <==> target == pos || target == pos + cnt)
      && (0 <= target < cnt ==> p.steps < cnt)
  {
    var cnt := CycleLength(ShiftFor(resolution));
    var pos := Position(mscntReg, resolution);
    var dir := Forward(inverted);
    var steps := target - pos;
    var (dir, steps) := if steps > cnt / 2 then (Flip(dir), cnt - steps) else (dir, steps);
    var (dir, steps) := if steps < 0 then (Flip(dir), -steps) else (dir, steps);
    var p := Plan(dir, steps);
    assert (pos + (target - pos - cnt)) % cnt == target % cnt by {
      ModShift(target, cnt);
    }
    p
  }

  /** For a target inside the cycle the move lands exactly on it, is shorter than the
      cycle, and is empty exactly when the motor is already there. */
  lemma PlanMoveInCycle(mscntReg: nat, target: int, resolution: int, inverted: bool)
    requires 0 <= target < CycleLength(ShiftFor(resolution))
    ensures var pos, cnt := Position(mscntReg, resolution), CycleLength(ShiftFor(resolution));
      var p := PlanMove(mscntReg, target, resolution, inverted);
      && (pos + Displacement(p, inverted)) % cnt == target
      && p.steps < cnt
      && (p.steps == 0 <==> pos == target)
  {
    var cnt := CycleLength(ShiftFor(resolution));
    DivModUnique(target, cnt, 0, target);
  }

  /** Subtracting a whole cycle does not change the position within it. */
  lemma ModShift(a: int, cnt: int)
    requires cnt > 0
    ensures (a - cnt) % cnt == a % cnt
  {
    DivModUnique(a - cnt, cnt, a / cnt - 1, a % cnt);
  }

  /** The distance between two positions of a cycle, the shorter way round. */
  function CyclicDistance(pos: int, target: int, cnt: int): (d: int)
    requires cnt > 0
    ensures 0 <= d <= cnt / 2
  {
    var forward := (target - pos) % cnt;
    var backward := (pos - target) % cnt;
    ModComplement(target - pos, cnt);
    if forward <= backward then forward else backward
  }

  /** Going forward a and backward a add up to a whole cycle unless a is a multiple of it. */
  lemma ModComplement(a: int, cnt: int)
    requires cnt > 0
    ensures a % cnt == 0 <==> (-a) % cnt == 0
    ensures a % cnt != 0 ==> a % cnt + (-a) % cnt == cnt
  {
    var q, r := a / cnt, a % cnt;
    assert a == cnt * q + r;
    if r == 0 {
      DivModUnique(-a, cnt, -q, 0);
    } else {
      DivModUnique(-a, cnt, -q - 1, cnt - r);
    }
  }

  /** For a target inside the cycle the move is a shortest one exactly when the target is
      at most half a cycle behind the current position; further behind, the counter is
      walked back the long way. */
  lemma PlanMoveShortest(mscntReg: nat, target: int, resolution: int, inverted: bool)
    requires 0 <= target < CycleLength(ShiftFor(resolution))
    ensures var pos, cnt := Position(mscntReg, resolution), CycleLength(ShiftFor(resolution));
      PlanMove(mscntReg, target, resolution, inverted).steps == CyclicDistance(pos, target, cnt)
      <==> target - pos >= -(cnt / 2)
  {
    var pos, cnt := Position(mscntReg, resolution), CycleLength(ShiftFor(resolution));
    var p := PlanMove(mscntReg, target, resolution, inverted);
    var a := target - pos;
    ModComplement(a, cnt);
    if a >= 0 {
      DivModUnique(a, cnt, 0, a);
      if a > 0 {
        DivModUnique(-a, cnt, -1, cnt - a);
      }
    } else {
      DivModUnique(-a, cnt, 0, -a);
      DivModUnique(a, cnt, -1, cnt + a);
    }
  }

  /** At full resolution, from MSCNT 1023 to position 0 the planner walks 1023 microsteps
      backward, although one microstep forward reaches it. */
  lemma PlanMoveLongWay()
    ensures PlanMove(1023, 0, 256, false) == Plan(0, 1023)
    ensures CyclicDistance(1023, 0, 1024) == 1
  {
    ShiftForResolution(256);
    assert Shr(256, 0) == 256;
    assert ShiftFor(256) == 0;
    assert CycleLength(0) == 1024 by { Pow2Ten(); }
    assert Mscnt(1023) == 1023;
    assert Position(1023, 256) == 1023;
    DivModUnique(-1023, 1024, -1, 1);
    DivModUnique(1023, 1024, 0, 1023);
  }
}
