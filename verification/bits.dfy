/** Integer and bit-vector helpers matching Python's `>>` and `&` on non-negative integers
    and the 32-bit register operations of the MSLUT packing. */
module Bits {

  /** 2 to the power k. */
  function Pow2(k: nat): (r: nat)
    ensures r >= 1
  {
    if k == 0 then 1 else 2 * Pow2(k - 1)
  }

  lemma {:induction false} Pow2Add(a: nat, b: nat)
    ensures Pow2(a + b) == Pow2(a) * Pow2(b)
  {
    if a > 0 {
      Pow2Add(a - 1, b);
      assert Pow2(a + b) == 2 * Pow2(a - 1 + b);
    }
  }

  /** Python's `x >> k` for a non-negative x. */
  function Shr(x: nat, k: nat): nat
  {
    var p := Pow2(k);
    DivNat(x, p);
    x / p
  }

  /** Dividing a natural number by a positive one gives a natural number. */
  lemma DivNat(x: nat, p: int)
    requires p >= 1
    ensures x / p >= 0
  {
  }

  /** A positive multiple of d is at least d. */
  lemma {:induction false} MulAtLeast(d: nat, k: int)
    requires k >= 1
    ensures d * k >= d
  {
    if k > 1 {
      MulAtLeast(d, k - 1);
      assert d * k == d * (k - 1) + d;
    }
  }

  /** Euclidean division is unique: a == d*h + z with 0 <= z < d fixes a / d and a % d. */
  lemma DivModUnique(a: int, d: int, h: int, z: int)
    requires d > 0 && 0 <= z < d && a == d * h + z
    ensures a / d == h && a % d == z
  {
    var q, r := a / d, a % d;
    assert a == d * q + r && 0 <= r < d;
    if q > h {
      MulAtLeast(d, q - h);
      assert false;
    } else if q < h {
      MulAtLeast(d, h - q);
      assert false;
    }
  }

  /** Multiplying by a natural number preserves order. */
  lemma MulMonotone(p: nat, a: int, b: int)
    requires a <= b
    ensures p * a <= p * b
  {
    if a < b {
      MulAtLeast(p, b - a);
      assert p * b == p * (b - a) + p * a;
    }
  }

  /** Shifting a number below 2^(a+b) right by a leaves a number below 2^b. */
  lemma ShrBelow(x: nat, a: nat, b: nat)
    requires x < Pow2(a + b)
    ensures Shr(x, a) < Pow2(b)
  {
    Pow2Add(a, b);
    var p, q := Pow2(a), Pow2(b);
    var h := x / p;
    assert x == p * h + x % p;
    if h >= q {
      MulMonotone(p, q, h);
      assert false;
    }
  }

  /** Python's `a & b` for non-negative a and b, bit by bit from the least significant end. */
  function BitAnd(a: nat, b: nat): (r: nat)
    ensures r <= a && r <= b
    decreases a
  {
    if a == 0 || b == 0 then 0
    else 2 * BitAnd(a / 2, b / 2) + (if a % 2 == 1 && b % 2 == 1 then 1 else 0)
  }

  /** Dafny's division and remainder by a positive divisor. */
  lemma Euclid(x: int, d: int)
    requires d > 0
    ensures x == d * (x / d) + x % d && 0 <= x % d < d
  {
  }

  /** Taking the low bit off a and then h*m + l off a / 2 splits a over 2*m. */
  lemma HalveSplit(a: nat, m: nat, h: nat, l: nat)
    requires m >= 1 && l < m && a / 2 == m * h + l
    ensures a % (2 * m) == 2 * l + a % 2
  {
    assert a == 2 * (a / 2) + a % 2;
    assert 2 * (m * h) == (2 * m) * h;
    DivModUnique(a, 2 * m, h, 2 * l + a % 2);
  }

  /** One step of the recursion of BitAnd against an odd mask 2*m - 1. */
  lemma BitAndOddMask(a: nat, m: nat)
    requires a > 0 && m >= 1
    ensures BitAnd(a, 2 * m - 1) == 2 * BitAnd(a / 2, m - 1) + a % 2
  {
    DivModUnique(2 * m - 1, 2, m - 1, 1);
  }

  /** Masking with 2^k - 1 keeps the k low bits: `a & (2^k - 1) == a % 2^k`. */
  lemma {:induction false} BitAndLowMask(a: nat, k: nat)
    ensures BitAnd(a, Pow2(k) - 1) == a % Pow2(k)
  {
    if k == 0 {
      assert Pow2(k) == 1;
    } else if a == 0 {
      DivModUnique(0, Pow2(k), 0, 0);
    } else {
      var m := Pow2(k - 1);
      assert Pow2(k) == 2 * m;
      BitAndOddMask(a, m);
      BitAndLowMask(a / 2, k - 1);
      var half := a / 2;
      var h, l := half / m, half % m;
      Euclid(half, m);
      HalveSplit(a, m, h, l);
    }
  }

  /** Bit j of a 32-bit register, with the position given as a bit-vector. */
  predicate BitAt(r: bv32, j: bv8)
    requires j < 32
  {
    (r >> j) & 1 == 1
  }

  /** Bit j of a 32-bit register (0 is the least significant bit). */
  predicate BitOf(r: bv32, j: nat)
    requires j < 32
  {
    BitAt(r, j as bv8)
  }

  /** `reg |= 0x80000000` when the emitted bit is 1; the register is unchanged otherwise. */
  function SetTop(r: bv32, bit: bool): bv32
  {
    if bit then r | 0x8000_0000 else r
  }

  /** Setting the top bit of a register whose top bit is clear changes bit 31 only. */
  lemma SetTopBitAt(r: bv32, bit: bool, j: bv8)
    requires j < 32 && r < 0x8000_0000
    ensures BitAt(SetTop(r, bit), j) == (if j == 31 then bit else BitAt(r, j))
  {
  }

  /** The zero register has no bit set. */
  lemma ZeroBitAt(j: bv8)
    requires j < 32
    ensures !BitAt(0, j)
  {
  }

  /** The bridge between the two ways of naming a bit: a natural-number index j < 32 and
      the bit-vector index j as bv8 agree on every comparison the packing uses, and bit
      j + 1 by its natural-number index is the bit after j as a bit-vector index. */
  lemma BitIndex(r: bv32, j: nat)
    requires j < 32
    ensures ((j as bv8) < 31 <==> j < 31) && ((j as bv8) == 30 <==> j == 30)
    ensures (j as bv8) == 31 <==> j == 31
    ensures j < 31 ==> BitOf(r, j + 1) == BitAt(r, (j as bv8) + 1)
  {
    if j < 31 {
      assert (j + 1) as bv8 == (j as bv8) + 1;
    }
  }
}
