/** The two command families around the cores: TMC_SET_WAVE sets the linearity factor from
    an offset and rewrites the wave table, and TMC_SET_STEP reads the microstep resolution,
    masks the requested position into one electrical cycle and plans the move there. */
module Commands {
  import opened Wrappers
  import opened Tmc2130
  import opened Bits
  import opened DeltaFamilies
  import opened LutCompressor
  import opened WaveGenerator
  import opened StepPlanner

  /** The offsets with a TMC_SET_WAVE command: 0, 10, ..., 200. */
  predicate WaveOffset(offset: int)
  {
    0 <= offset <= 200 && offset % 10 == 0
  }

  /** The positions with a TMC_SET_STEP command: 0, 2, ..., 1050. */
  predicate StepPosition(position: int)
  {
    0 <= position <= 1050 && position % 2 == 0
  }

  /** The linearity factor, in thousandths, an offset sets. */
  function LinearityFactor(offset: int): (fac1000: int)
    ensures fac1000 - offset == MinLinearityFactor
    ensures WaveOffset(offset) ==> MinLinearityFactor <= fac1000 <= MaxLinearityFactor
  {
    1000 + offset
  }

  /** The exponent of the sine curve for a factor in thousandths; a factor of zero means 1.
      Every factor the configuration or a command can set gives an exponent in [1, 1.2],
      the domain the curve is designed for, and the exponent grows with the factor. */
  function FactorValue(fac1000: int): (fac: real)
    ensures fac1000 != 0 ==> fac * 1000.0 == fac1000 as real
    ensures fac1000 == 0 ==> fac == 1.0
    ensures MinLinearityFactor <= fac1000 <= MaxLinearityFactor ==> 1.0 <= fac <= 1.2
    ensures 0 < fac1000 ==> 0.0 < fac
  {
    if fac1000 != 0 then fac1000 as real / 1000.0 else 1.0
  }

  /** Every TMC_SET_WAVE command sets an exponent of 1 + offset / 1000, which lies in
      [1, 1.2], and a larger offset sets a larger exponent. */
  lemma WaveCommandExponent(offset: int, offset': int)
    requires WaveOffset(offset) && WaveOffset(offset')
    ensures FactorValue(LinearityFactor(offset)) == 1.0 + offset as real / 1000.0
    ensures 1.0 <= FactorValue(LinearityFactor(offset)) <= 1.2
    ensures offset < offset' ==> FactorValue(LinearityFactor(offset)) < FactorValue(LinearityFactor(offset'))
  {
  }

  /** The microstep resolution of an MRES field value, 256 when the field cannot be read. */
  function MicrostepResolution(mres: Option<nat>): (res: nat)
    ensures mres.None? ==> res == 256
    ensures mres.Some? && mres.value <= 8 ==> res == Pow2(8 - mres.value)
    ensures mres.Some? && mres.value > 8 ==> res == 0
  {
    match mres
    case None => 256
    case Some(m) =>
      if m <= 8 then ShrFullSteps(m); Shr(256, m)
      else
        Pow2Add(9, m - 9);
        Pow2Ten();
        assert Pow2(9) == 512;
        MulAtLeast(512, Pow2(m - 9));
        DivModUnique(256, Pow2(m), 0, 256);
        Shr(256, m)
  }

  /** A requested position masked with 4 * resolution - 1; a resolution of 0 gives the mask
      -1, which keeps the position. */
  function MaskTarget(target: nat, resolution: nat): (masked: nat)
    ensures resolution > 0 ==> masked <= 4 * resolution - 1
    ensures resolution == 0 ==> masked == target
  {
    if resolution == 0 then target else BitAnd(target, 4 * resolution - 1)
  }

  /** For a power-of-two resolution the mask is the position within the cycle. */
  lemma MaskTargetIsCyclePosition(target: nat, mres: nat)
    requires mres <= 8
    ensures var res := MicrostepResolution(Some(mres));
      MaskTarget(target, res) == target % (4 * res)
  {
    var res := MicrostepResolution(Some(mres));
    Pow2Add(2, 8 - mres);
    assert Pow2(2) == 4;
    assert 4 * res == Pow2(10 - mres);
    BitAndLowMask(target, 10 - mres);
  }

  /** TMC_SET_WAVE: the wave table for the theoretical curve, compressed. */
  function ApplyCorrection(theo: seq<real>): (r: Result<Lut, Unrepresentable>)
    requires |theo| == TableSize
    ensures r.Success?
  {
    Compress(Generate(theo))
  }

  /** TMC_SET_STEP: the move to the requested position, masked into one cycle. */
  function SetStep(mscntReg: nat, target: nat, mres: Option<nat>, inverted: bool): (p: Plan)
    ensures p.dir == 0 || p.dir == 1
    ensures p.steps >= 0
  {
    var res := MicrostepResolution(mres);
    PlanMove(mscntReg, MaskTarget(target, res), res, inverted)
  }

  /** For every MRES value the driver uses with a whole number of microsteps (0..7, or the
      default), the move lands on the requested position within the cycle, takes fewer
      steps than the cycle has, and is empty exactly when the motor is already there. */
  lemma SetStepLandsOnTarget(mscntReg: nat, target: nat, mres: Option<nat>, inverted: bool)
    requires mres.None? || mres.value <= 7
    ensures var res := MicrostepResolution(mres);
      var cnt := 4 * res;
      var p := SetStep(mscntReg, target, mres, inverted);
      var pos := Position(mscntReg, res);
      && CycleLength(ShiftFor(res)) == cnt
      && (pos + Displacement(p, inverted)) % cnt == target % cnt
      && p.steps < cnt
      && (p.steps == 0 <==> pos == target % cnt)
  {
    var m := if mres.None? then 0 else mres.value;
    if mres.None? {
      ShrFullSteps(0);
    }
    assert MicrostepResolution(mres) == MicrostepResolution(Some(m));
    SetStepAtResolution(mscntReg, target, m, inverted);
  }

  /** The same for a known MRES value m. */
  lemma SetStepAtResolution(mscntReg: nat, target: nat, m: nat, inverted: bool)
    requires m <= 7
    ensures var res := MicrostepResolution(Some(m));
      var cnt := 4 * res;
      var p := PlanMove(mscntReg, MaskTarget(target, res), res, inverted);
      var pos := Position(mscntReg, res);
      && CycleLength(ShiftFor(res)) == cnt
      && (pos + Displacement(p, inverted)) % cnt == target % cnt
      && p.steps < cnt
      && (p.steps == 0 <==> pos == target % cnt)
  {
    var res := MicrostepResolution(Some(m));
    CycleOfResolution(m);
    MaskTargetIsCyclePosition(target, m);
    PlanMoveInCycle(mscntReg, MaskTarget(target, res), res, inverted);
  }

  /** The cycle the planner uses for resolution 256 >> m is four times the resolution. */
  lemma CycleOfResolution(m: nat)
    requires m <= 7
    ensures CycleLength(ShiftFor(MicrostepResolution(Some(m)))) == 4 * MicrostepResolution(Some(m))
  {
    var res := MicrostepResolution(Some(m));
    ShrFullSteps(m);
    ShiftForResolution(res);
    assert ShiftFor(res) == m;
    Pow2Add(2, 8 - m);
    assert Pow2(2) == 4;
  }

  /** At the default resolution, the step commands past one cycle (1024..1050) wrap to the
      start of the cycle. */
  lemma StepPositionsWrap(position: nat)
    requires StepPosition(position)
    ensures var res := MicrostepResolution(None);
      MaskTarget(position, res) == (if position < 1024 then position else position - 1024)
  {
    MaskTargetIsCyclePosition(position, 0);
    ShrFullSteps(0);
    if position < 1024 {
      DivModUnique(position, 1024, 0, position);
    } else {
      DivModUnique(position, 1024, 1, position - 1024);
    }
  }

  /** At MRES 8 (full steps) the resolution is 1, no shift up to 7 matches it, and the
      planner falls back to shift 7, whose cycle of 8 microsteps is twice the 4 the mask
      keeps targets within. */
  lemma FullStepFallsBack()
    ensures MicrostepResolution(Some(8)) == 1
    ensures ShiftFor(1) == 7 && CycleLength(ShiftFor(1)) == 8
    ensures MaskTarget(5, 1) == 1
  {
    ShiftForResolution(1);
    forall m | 0 <= m <= 7
      ensures Shr(256, m) != 1
    {
      ShrFullSteps(m);
      Pow2Add(1, 7 - m);
    }
    MaskTargetIsCyclePosition(5, 8);
  }
}
