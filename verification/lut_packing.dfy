/** How the compressor packs the emitted bits of one 32-entry block into an MSLUT word:
    for each entry a 1 bit sets bit 31 of the register, then the register is shifted right
    by one, except after the 32nd entry, when it is written out unshifted. */
module LutPacking {
  import opened Bits

  /** One entry that is not the last of its block: set its bit in, then shift right. */
  function ShiftIn(r: bv32, b: bool): bv32
  {
    SetTop(r, b) >> 1
  }

  /** The register after the bits bs of a block have been set in and shifted right once each. */
  function Acc(bs: seq<bool>): bv32
    decreases |bs|
  {
    if bs == [] then 0 else ShiftIn(Acc(bs[..|bs| - 1]), bs[|bs| - 1])
  }

  /** One more bit of a block: set it in, then shift. */
  lemma AccSnoc(bs: seq<bool>, b: bool)
    ensures Acc(bs + [b]) == ShiftIn(Acc(bs), b)
  {
    var c := bs + [b];
    assert c[..|c| - 1] == bs && c[|c| - 1] == b;
  }

  /** A shifted register never has its top bit set. */
  lemma ShiftInBelow(r: bv32, b: bool)
    ensures ShiftIn(r, b) < 0x8000_0000
  {
  }

  /** Bit j of the register after one more bit b was set in and shifted, in terms of
      bit j + 1 before. */
  lemma ShiftInBitAt(r: bv32, b: bool, j: bv8)
    requires r < 0x8000_0000 && j < 32
    ensures BitAt(ShiftIn(r, b), j) == (j < 31 && (if j == 30 then b else BitAt(r, j + 1)))
  {
  }

  /** After n <= 31 bits the register holds them in bits 31-n .. 30, earliest lowest, and
      nothing else; in particular its top bit is clear. */
  lemma {:induction false} AccBits(bs: seq<bool>)
    requires |bs| <= 31
    ensures Acc(bs) < 0x8000_0000
    ensures forall j :: 0 <= j < 32 ==>
      BitOf(Acc(bs), j) == (31 - |bs| <= j < 31 && bs[j - (31 - |bs|)])
  {
    if bs == [] {
      forall j | 0 <= j < 32
        ensures !BitOf(Acc(bs), j)
      {
        ZeroBitAt(j as bv8);
      }
    } else {
      var n := |bs|;
      var front := bs[..n - 1];
      AccBits(front);
      var r := Acc(front);
      assert Acc(bs) == ShiftIn(r, bs[n - 1]);
      ShiftInBelow(r, bs[n - 1]);
      forall j | 0 <= j < 32
        ensures BitOf(Acc(bs), j) == (31 - n <= j < 31 && bs[j - (31 - n)])
      {
        ShiftInBitAt(r, bs[n - 1], j as bv8);
        BitIndex(r, j);
        if j < 30 && 31 - n <= j {
          assert front[j + 1 - (32 - n)] == bs[j - (31 - n)];
        }
      }
    }
  }

  /** The word written at the end of a block of 32 bits. */
  function Word(bs: seq<bool>): (r: bv32)
    requires |bs| == 32
    ensures forall j :: 0 <= j < 32 ==> BitOf(r, j) == bs[j]
  {
    var a := Acc(bs[..31]);
    AccBits(bs[..31]);
    var r := SetTop(a, bs[31]);
    assert forall j :: 0 <= j < 32 ==> BitOf(r, j) == bs[j] by {
      forall j | 0 <= j < 32
        ensures BitOf(r, j) == bs[j]
      {
        SetTopBitAt(a, bs[31], j as bv8);
        BitIndex(a, j);
        if j < 31 {
          assert BitOf(a, j) == bs[..31][j];
        }
      }
    }
    r
  }
}
