/** The integer machinery of the constant-torque wave generator: each theoretical value is
    rounded against the carried quantization error, held within a two-wide window of steps
    chosen from the slope of the theoretical curve, and clamped to the amplitude range. The
    theoretical curve itself (a power-corrected sine mirrored through the constant-torque
    constraint) is an input of 256 reals. */
module WaveGenerator {
  import opened Tmc2130
  import opened DeltaFamilies

  /** Conversion of a real to an integer by truncation toward zero. */
  function Truncate(x: real): (r: int)
    ensures x >= 0.0 ==> r as real <= x < r as real + 1.0
    ensures x < 0.0 ==> r as real - 1.0 < x <= r as real
  {
    if x >= 0.0 then x.Floor else -((-x).Floor)
  }

  /** Rounding half up by adding one half and truncating. */
  function RoundHalfUp(x: real): int
  {
    Truncate(x + 0.5)
  }

  /** From -1/2 on, adding one half and truncating rounds to the nearest integer, ties up. */
  lemma RoundHalfUpIsNearest(x: real)
    requires x >= -0.5
    ensures -0.5 < RoundHalfUp(x) as real - x <= 0.5
  {
  }

  /** Below -1/2 the truncation goes toward zero instead: -1 is rounded to 0. */
  lemma RoundHalfUpBelowHalf()
    ensures RoundHalfUp(-1.0) == 0
  {
    assert (0.5).Floor == 0;
  }

  /** The lower end of the step window for a slope: the floor of the slope, clamped to
      [-1, 2] so that the window [lower, lower + 1] is a family the hardware has. */
  function MinDelta(slope: real): (d: int)
    ensures -1 <= d <= 2
    ensures -1.0 <= slope < 3.0 ==> d as real <= slope < d as real + 1.0
    ensures slope < -1.0 ==> d == -1
    ensures slope >= 3.0 ==> d == 2
  {
    var f := slope.Floor;
    if f < -1 then -1 else if f > 2 then 2 else f
  }

  /** The generator's state between entries: the previous table value, the quantization
      error carried forward, and the previous theoretical value. */
  datatype Quantizer = Quantizer(va: int, carry: real, prevTheo: real)

  /** The state before the first entry. */
  const Fresh: Quantizer := Quantizer(Sin0, 0.0, 0.0)

  /** The rounded value before the window is applied. */
  function Candidate(q: Quantizer, theo: real): int
  {
    RoundHalfUp(theo - q.carry)
  }

  /** The window of values entry theo may take after value q.va. */
  function WindowLow(q: Quantizer, theo: real): int
  {
    q.va + MinDelta(theo - q.prevTheo)
  }

  /** One entry: the candidate is moved into the step window, then clamped to the
      amplitude range; the output is carried as the new previous value, its error as the
      new carry, and theo as the new previous theoretical value. */
  function Quantize(q: Quantizer, theo: real): (q': Quantizer)
    ensures 0 <= q'.va <= Amplitude
    ensures 0 <= q.va <= Amplitude ==> Representable(q'.va - q.va)
    ensures q'.carry == q'.va as real - theo && q'.prevTheo == theo
    ensures 0 <= WindowLow(q, theo) && WindowLow(q, theo) + 1 <= Amplitude ==>
      && WindowLow(q, theo) <= q'.va <= WindowLow(q, theo) + 1
      && (WindowLow(q, theo) <= Candidate(q, theo) <= WindowLow(q, theo) + 1 ==>
            q'.va == Candidate(q, theo))
      && (Candidate(q, theo) < WindowLow(q, theo) ==> q'.va == WindowLow(q, theo))
      && (Candidate(q, theo) > WindowLow(q, theo) + 1 ==> q'.va == WindowLow(q, theo) + 1)
  {
    var candidate := RoundHalfUp(theo - q.carry);
    var minDelta := MinDelta(theo - q.prevTheo);
    var delta := candidate - q.va;
    var windowed :=
      if delta < minDelta then q.va + minDelta
      else if delta > minDelta + 1 then q.va + minDelta + 1
      else candidate;
    var v :=
      if windowed < Sin0 then Sin0
      else if windowed > Amplitude then Amplitude
      else windowed;
    Quantizer(v, v as real - theo, theo)
  }

  /** A steep first entry uses the largest step the hardware can encode. */
  lemma QuantizeReachesStepThree()
    ensures Quantize(Fresh, 3.0).va == 3
  {
    assert (3.5).Floor == 3;
    assert (3.0).Floor == 3;
  }

  /** The first n entries of the table and the state after them. */
  datatype Generated = Generated(table: seq<int>, state: Quantizer)

  /** The generation loop over the first n theoretical values. Every entry is in the
      amplitude range and every step, from SIN0 on, is one the compressor can encode. */
  function GeneratePrefix(theo: seq<real>, n: nat): (g: Generated)
    requires n <= |theo|
    ensures |g.table| == n
    ensures forall i :: 0 <= i < n ==> 0 <= g.table[i] <= Amplitude
    ensures RepresentableUpTo(g.table, n)
    ensures g.state.va == Prev(g.table, n)
    ensures n == 0 ==> g.state == Fresh
    ensures n > 0 ==> g.state.prevTheo == theo[n - 1]
    ensures n > 0 ==> g.state.carry == g.table[n - 1] as real - theo[n - 1]
  {
    if n == 0 then Generated([], Fresh)
    else
      var g := GeneratePrefix(theo, n - 1);
      var q := Quantize(g.state, theo[n - 1]);
      var table := g.table + [q.va];
      assert forall i :: 0 <= i < n - 1 ==> table[i] == g.table[i];
      assert forall i :: 0 <= i < n - 1 ==> Delta(table, i) == Delta(g.table, i);
      Generated(table, q)
  }

  /** Entry i is the quantization of theoretical value i, given the state the entries
      before it left behind. */
  lemma {:induction false} GeneratePrefixStep(theo: seq<real>, n: nat, i: nat)
    requires i < n <= |theo|
    ensures GeneratePrefix(theo, n).table[i] ==
      Quantize(GeneratePrefix(theo, i).state, theo[i]).va
  {
    var g := GeneratePrefix(theo, n - 1);
    var q := Quantize(g.state, theo[n - 1]);
    assert GeneratePrefix(theo, n).table == g.table + [q.va];
    if n > i + 1 {
      GeneratePrefixStep(theo, n - 1, i);
    }
  }

  /** The 256-entry wave table for a theoretical curve. */
  function Generate(theo: seq<real>): (t: seq<int>)
    requires |theo| == TableSize
    ensures |t| == TableSize
    ensures forall i :: 0 <= i < TableSize ==> 0 <= t[i] <= Amplitude
    ensures RepresentableUpTo(t, TableSize)
  {
    GeneratePrefix(theo, TableSize).table
  }
}
