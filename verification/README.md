# TMC2130 linearity correction, modelled in Dafny

A model of the computational core of the Klipper plugin `tmc2130_linearity.py`. The plugin rewrites the microstep wave table of a TMC2130 stepper driver so that the motor runs with constant torque. It also moves the motor to a chosen microstep position. The model covers three parts.

- **The MSLUT compressor** turns the loop of `_write_wave_table` into a pure function `Compress` from a 256-entry table to a register image: eight MSLUT words, MSLUTSEL widths `w0..w3` and boundaries `x1..x3`, and MSLUTSTART. It fails with the index of the entry it broke at and the image that still reached the registers. The `Failure` value is the model's own record: the source signals nothing. `_write_wave_table` returns normally after the break, and `_apply_linearity_correction` then logs success (tmc2130_linearity.py:244-246).
  - The encoder state `(d0, d1, s, w, x, va, reg)` is the `Encoder` datatype, and one iteration is `Step`.
  - `DeltaFamilies` defines, independently of that state machine, the family a greedy encoder must be in after each entry, the bit it emits and where it switches.
  - `LutPacking` is the set-bit-31-then-shift packing.
  - `LutDecoder` reads an image back into a table. It is the inverse the compressor is meant to have.
- **The quantizer and wave generator** model the tail of `_tmc2130_calc_constant_torque_value` and the loop of `_generate_constant_torque_wave`. That means the round-half-up by truncation, the slope window clamped to `[-1, 2]`, the amplitude clamp to `[0, 248]`, and the carry and previous-value threading. The theoretical curve is an input of 256 reals.
- **The goto-step planner and command helpers** model the arithmetic of `_goto_step`, `256 >> mres`, the target mask `target & (4*res - 1)` and the factor `1000 + offset`. `Commands` composes the parts: a generated table always compresses, and a step command lands on its target within the cycle.

Four behaviours of the code are stated as facts:
- A fourth family switch is not rejected. It changes `d0`/`d1` without recording a boundary. The "segment out of range" check `s > 3` (tmc2130_linearity.py:462) can never fire, because `s` stops at 3. The table is then mis-encoded (`CompressDecodeRoundTrip`, `FourthSwitchAccepted`).
- A failure still writes to the chip: MSLUTSTART, the words completed before the failing entry, and MSLUTSEL (`FailedCompressWritesPrefix`). Nothing reports the failure: the source logs success afterwards.
- An unsupported resolution raises no error. The shift search falls through to 7 (`ShiftForResolution`, `FullStepFallsBack`).
- The planned move is not always the shortest one, although the docstring of `_goto_step` says the auto-direction mode picks the shortest path (tmc2130_linearity.py:641-643). When the target is more than half a cycle behind, the counter is walked the long way (`PlanMoveShortest`, `PlanMoveLongWay`).

## Model

| member | source | states |
|---|---|---|
| `DeltaFamilies.NextFamily` | tmc2130_linearity.py:409-453 | the family after a delta covers that delta, and equals the current family exactly when the current family already covers it |
| `DeltaFamilies.NextFamilyIsNearest` | tmc2130_linearity.py:415-451 | a switch goes to the covering family nearest to the current one: no family that covers the delta is closer |
| `DeltaFamilies.FamilyInRange` | tmc2130_linearity.py:418-451 | through representable deltas the encoder only reaches the four hardware families, lower delta -1..2 |
| `DeltaFamilies.SwitchCountMonotone` | tmc2130_linearity.py:433-457 | switch counts never decrease, and a switching entry is counted by every later prefix |
| `DeltaFamilies.FamilySteady` | tmc2130_linearity.py:409-412 | between two prefixes with the same number of switches the family is unchanged |
| `LutCompressor.Classify` | tmc2130_linearity.py:402-457 | one entry: it fails exactly when the step is outside [-1, 3]; bit 0 means the step is the new d0 and bit 1 means it is the new d1; the family moves to the nearest covering one; a switch with s < 3 records x[s] = i and w[s+1] = the new code; a fourth switch changes d0/d1 but leaves w, x, s alone; d1 = d0 + 1, d0 in [-1, 2], codes in 0..3 and increasing boundaries are preserved |
| `LutCompressor.Step` | tmc2130_linearity.py:399-474 | one loop iteration breaks exactly on an unrepresentable step and keeps the encoder invariant, so the break on s > 3 never fires |
| `LutCompressor.StepTracks` | tmc2130_linearity.py:399-474 | each iteration emits the reference bit of its entry and keeps the encoder equal to the reference encoding of the prefix |
| `LutCompressor.PackingFlush` | tmc2130_linearity.py:466-471 | at the 32nd entry of a block, setting its bit completes the word that packs the block's 32 bits |
| `LutCompressor.PackingShift` | tmc2130_linearity.py:466-474 | at any other entry, setting its bit and shifting extends the register by that bit |
| `LutCompressor.RunTracks` | tmc2130_linearity.py:397-479 | the loop finishes with the reference state of all 256 entries, or breaks at the first unrepresentable step with the reference state before it |
| `LutCompressor.Compress` | tmc2130_linearity.py:384-489 | compression fails exactly when some step from SIN0 on lies outside [-1, 3], and then at the first such entry |
| `LutCompressor.CompressDescribes` | tmc2130_linearity.py:380-489 | what reaches the registers is the reference encoding of the whole table, or on failure of the entries before the failing one |
| `LutCompressor.CompressPacksBits` | tmc2130_linearity.py:399-474 | eight words are written, and bit j of word k is the bit emitted for entry 32k + j |
| `LutCompressor.CompressSegments` | tmc2130_linearity.py:387-457 | w0 = 1 and all codes fit two bits; boundary k is the entry of switch k, strictly after boundary k-1, and is followed by the code of the family entered; unused boundaries stay 255 with code 1 |
| `LutCompressor.FailedCompressWritesPrefix` | tmc2130_linearity.py:459-489 | after a failure the image still holds MSLUTSTART, the words of the blocks completed before the failing entry, and MSLUTSEL for the switches before it |
| `LutCompressor.CompressRejectsSteepStart` | tmc2130_linearity.py:403-461 | a first step of +10 is rejected at entry 0, leaving only MSLUTSTART and the initial MSLUTSEL |
| `LutPacking.AccBits` | tmc2130_linearity.py:466-474 | after n < 32 entries of a block the register holds their bits in positions 31-n..30, earliest lowest, and nothing else |
| `LutPacking.Word` | tmc2130_linearity.py:466-471 | bit j of a flushed word is the bit of the j-th entry of its block |
| `LutDecoder.CompressDecodeRoundTrip` | tmc2130_linearity.py:384-489 | a compressed table reads back from its image exactly when it has at most three family switches |
| `LutDecoder.FourthSwitchAccepted` | tmc2130_linearity.py:433-463 | the table with steps +2, -1, +2, -1 and then flat compresses without error but does not read back |
| `WaveGenerator.Truncate` | tmc2130_linearity.py:284 | `int()` of a real is the integer next to it toward zero |
| `WaveGenerator.RoundHalfUpIsNearest` | tmc2130_linearity.py:283-284 | from -1/2 on, adding 0.5 and truncating rounds to the nearest integer, ties up |
| `WaveGenerator.RoundHalfUpBelowHalf` | tmc2130_linearity.py:284 | below -1/2 it rounds toward zero instead: -1 becomes 0 |
| `WaveGenerator.MinDelta` | tmc2130_linearity.py:293-300 | the window's lower step lies in [-1, 2]; it is the floor of the slope for slopes in [-1, 3), -1 below and 2 above |
| `WaveGenerator.Quantize` | tmc2130_linearity.py:281-322 | the output lies in [0, 248] and differs from a previous value in that range by a step in [-1, 3]; when the window lies inside [0, 248] the output is in the window and is the window point nearest the rounded candidate; the new carry is the output's error and the new previous value is the input |
| `WaveGenerator.QuantizeReachesStepThree` | tmc2130_linearity.py:293-307 | a slope of 3 from the start yields the largest step, 3 |
| `WaveGenerator.GeneratePrefix` | tmc2130_linearity.py:351-358 | every generated entry lies in [0, 248], every step from SIN0 on is one the compressor encodes, and the carried state is the last output and its error |
| `WaveGenerator.GeneratePrefixStep` | tmc2130_linearity.py:354-358 | entry i is the quantization of theoretical value i from the state the earlier entries left |
| `WaveGenerator.Generate` | tmc2130_linearity.py:324-360 | the generated table has 256 entries in [0, 248] whose steps all lie in [-1, 3] |
| `StepPlanner.Mscnt` | tmc2130_linearity.py:655 | masking with 0x3ff keeps the register value modulo 1024 |
| `StepPlanner.ShiftFrom` | tmc2130_linearity.py:658-661 | the search stops at the first shift whose `256 >> shift` matches, or at 7 when none does |
| `StepPlanner.ShiftForResolution` | tmc2130_linearity.py:658-661 | a resolution of `256 >> m` with m <= 7 gets shift m, and any other resolution gets shift 7 |
| `StepPlanner.CycleLength` | tmc2130_linearity.py:664 | the cycle at shift s has 2^(10-s) microsteps, at least 8 |
| `StepPlanner.Position` | tmc2130_linearity.py:655-675 | the current position `mscnt >> shift` lies inside the cycle |
| `StepPlanner.PlanMove` | tmc2130_linearity.py:669-688 | the direction is 0 or 1 and the count is non-negative; the signed move is the difference or the difference minus a cycle, so it lands on the target modulo the cycle; it is empty exactly when the target is the position or one cycle ahead; for targets in the cycle it is shorter than the cycle |
| `StepPlanner.PlanMoveInCycle` | tmc2130_linearity.py:674-690 | for a target inside the cycle the move lands exactly on it and is empty exactly when the motor is already there |
| `StepPlanner.PlanMoveShortest` | tmc2130_linearity.py:677-685 | for a target inside the cycle the move is a shortest one exactly when the target is at most half a cycle behind the position |
| `StepPlanner.PlanMoveLongWay` | tmc2130_linearity.py:674-685 | at full resolution, from counter 1023 to position 0 the plan is 1023 steps backward, though 1 forward suffices |
| `Commands.LinearityFactor` | tmc2130_linearity.py:516 | the factor is the offset above 1000 thousandths, and every registered offset gives a factor in [1000, 1200] |
| `Commands.FactorValue` | tmc2130_linearity.py:331-335 | every factor in thousandths the configuration (minval 1.0, maxval 1.2) or a command can set gives an exponent in [1, 1.2], the domain the curve is built for; a positive factor gives a positive exponent, and an unset factor (0) falls back to exponent 1 |
| `Commands.WaveCommandExponent` | tmc2130_linearity.py:83-89 | each TMC_SET_WAVE offset sets the exponent 1 + offset/1000 its description announces; that exponent lies in [1, 1.2], and a larger offset sets a larger exponent |
| `Commands.MicrostepResolution` | tmc2130_linearity.py:550-562 | the resolution is 256 when MRES is unknown, 2^(8-m) for MRES m <= 8, and 0 beyond |
| `Commands.MaskTarget` | tmc2130_linearity.py:536-537 | the masked position is at most 4*res - 1, and a resolution of 0 (mask -1) keeps the position |
| `Commands.MaskTargetIsCyclePosition` | tmc2130_linearity.py:536-537 | for resolution `256 >> m` the mask is the position modulo 4*res |
| `Commands.StepPositionsWrap` | tmc2130_linearity.py:92-98 | at the default resolution the step commands 1024..1050 wrap to 0..26 |
| `Commands.FullStepFallsBack` | tmc2130_linearity.py:658-664 | at MRES 8 the resolution is 1, the shift falls through to 7 and the planner's cycle is 8, twice the 4 the mask allows for |
| `Commands.ApplyCorrection` | tmc2130_linearity.py:228-250 | compressing a generated table never fails |
| `Commands.SetStepLandsOnTarget` | tmc2130_linearity.py:529-540 | for MRES 0..7 or unknown, the planner's cycle is 4*res and the move lands on the requested position modulo it; it is shorter than the cycle and empty exactly when the motor is there |
| `Commands.CycleOfResolution` | tmc2130_linearity.py:658-664 | for resolution `256 >> m` with m <= 7 the planner's cycle is four times the resolution |

## Left out

- The theoretical curve, that is sin, pow, sqrt and the torque correction `tcorr` (tmc2130_linearity.py:262-279, 345-348), is not modelled: it is floating-point transcendental arithmetic. `Generate` takes the 256 theoretical values as reals, and every property of the generator holds for any such values.
- Floating point is modelled as exact reals. Float rounding, NaN and infinity are out of scope, and so is `int(factor * 1000)` at configuration time (line 64).
- Register transport is not modelled: `_set_tmc_field`, `_get_tmc_field` and `_get_tmc_register`. The compressor returns the image instead of writing it, MSCNT and MRES are inputs, and a failed MRES read is the `None` input.
- A failed MSCNT read raises an error in `_goto_step` (lines 650-652). The model takes the register value as given.
- Pins, step pulses, timing, the toolhead, `_perform_force_move_steps` and the verification loops are not modelled. They are I/O and reactor plumbing.
- Configuration parsing, event handlers, G-code registration and responses, and logging are not modelled. The registered offsets and positions appear only as the predicates `WaveOffset` and `StepPosition`.
- The axis inversion is an input, a plain boolean; how the source derives it from the direction pin's configuration is not modelled. The direction mode is not an input in the source either: it is the local constant `dir = 2` (line 667), and only that automatic mode is modelled.
- `_get_current_step_position` is not modelled: it is a register read that no modelled path uses.
- `Compress` requires exactly 256 entries. On a shorter table the source raises an index error, which is not modelled.
- `LutDecoder.Decode` takes the number of recorded boundaries as a parameter. The chip's own reading of boundaries left at 255 is not part of this model.
- `Commands.SetStep` states only the range of its result. Its landing property is stated by `Commands.SetStepLandsOnTarget`, for the MRES values 0..7 and unknown.
