/** Fixed constants of the TMC2130 constant-torque wave and its configuration. */
module Tmc2130 {

  /** Maximum register amplitude of the wave table (AMPLITUDE / AMP). */
  const Amplitude: int := 248

  /** Amplitude of the wave at microstep 0 (SIN0). */
  const Sin0: int := 0

  /** Linearity factors are stored times 1000: 1000 means 1.0, 1200 means 1.2. */
  const MinLinearityFactor: int := 1000
  const MaxLinearityFactor: int := 1200

  /** Number of entries of the quarter-wave table held in MSLUT. */
  const TableSize: nat := 256

  /** Number of 32-bit MSLUT words the table is packed into. */
  const WordCount: nat := 8
}
