/** Reading a register image back into a wave table: entry i lies in the segment after every
    recorded boundary x[k] <= i, that segment's width code w selects the family whose lower
    delta is w - 1, and the bit of entry i in the MSLUT words chooses between the family's
    two deltas. This is the inverse the compressor is meant to have. */
module LutDecoder {
  import opened Tmc2130
  import opened Bits
  import opened DeltaFamilies
  import opened LutCompressor

  /** The image has the register layout: eight MSLUT words, four width codes, three
      boundaries. */
  predicate WellFormed(lut: Lut)
  {
    |lut.mslut| == WordCount && |lut.w| == 4 && |lut.x| == 3
  }

  /** The segment of entry i when the first `segments` boundaries of x are in use: the
      number of them at or before i. */
  function SegmentOf(x: seq<int>, segments: nat, i: int): (m: nat)
    requires segments <= |x|
    ensures m <= segments
  {
    if segments == 0 then 0
    else SegmentOf(x, segments - 1, i) + (if x[segments - 1] <= i then 1 else 0)
  }

  /** The step the image encodes for entry i. */
  function EncodedDelta(lut: Lut, segments: nat, i: nat): int
    requires WellFormed(lut) && segments <= 3 && i < TableSize
  {
    lut.w[SegmentOf(lut.x, segments, i)] - 1 + (if BitOf(lut.mslut[i / 32], i % 32) then 1 else 0)
  }

  /** The first n entries read back from the image, starting from START_SIN. */
  function DecodePrefix(lut: Lut, segments: nat, n: nat): (vs: seq<int>)
    requires WellFormed(lut) && segments <= 3 && n <= TableSize
    ensures |vs| == n
    ensures n > 0 ==> vs[0] == lut.startSin + EncodedDelta(lut, segments, 0)
    ensures forall i :: 0 < i < n ==> vs[i] == vs[i - 1] + EncodedDelta(lut, segments, i)
  {
    if n == 0 then []
    else
      var vs := DecodePrefix(lut, segments, n - 1);
      var prev := if n == 1 then lut.startSin else vs[n - 2];
      var r := vs + [prev + EncodedDelta(lut, segments, n - 1)];
      assert forall i :: 0 <= i < n - 1 ==> r[i] == vs[i];
      r
  }

  /** The whole table read back from the image. */
  function Decode(lut: Lut, segments: nat): (vs: seq<int>)
    requires WellFormed(lut) && segments <= 3
    ensures |vs| == TableSize
    ensures vs[0] == lut.startSin + EncodedDelta(lut, segments, 0)
    ensures forall i :: 0 < i < TableSize ==> vs[i] == vs[i - 1] + EncodedDelta(lut, segments, i)
  {
    DecodePrefix(lut, segments, TableSize)
  }

  /** When every step the image encodes is the table's own step, and the image starts from
      SIN0, it reads back as the table. */
  lemma DecodeAgrees(lut: Lut, segments: nat, t: seq<int>)
    requires WellFormed(lut) && segments <= 3 && |t| == TableSize && lut.startSin == Sin0
    requires forall i :: 0 <= i < TableSize ==> EncodedDelta(lut, segments, i) == Delta(t, i)
    ensures Decode(lut, segments) == t
  {
    var vs := Decode(lut, segments);
    forall i | 0 <= i < TableSize
      ensures vs[i] == t[i]
    {
      DecodeAgreesAt(lut, segments, t, i);
    }
  }

  lemma {:induction false} DecodeAgreesAt(lut: Lut, segments: nat, t: seq<int>, i: nat)
    requires WellFormed(lut) && segments <= 3 && |t| == TableSize && lut.startSin == Sin0
    requires forall i :: 0 <= i < TableSize ==> EncodedDelta(lut, segments, i) == Delta(t, i)
    requires i < TableSize
    ensures Decode(lut, segments)[i] == t[i]
  {
    var vs := Decode(lut, segments);
    assert EncodedDelta(lut, segments, i) == t[i] - Prev(t, i);
    if i > 0 {
      DecodeAgreesAt(lut, segments, t, i - 1);
      assert vs[i] == vs[i - 1] + EncodedDelta(lut, segments, i);
    }
  }

  /** Within a described image, the first m recorded boundaries place entry i in segment
      min(switches up to and including i, m). */
  lemma {:induction false} SegmentCount(t: seq<int>, lut: Lut, i: nat, m: nat)
    requires |t| == TableSize && Describes(t, TableSize, lut)
    requires i < TableSize && m <= SegmentsUsed(t)
    ensures SegmentOf(lut.x, m, i) == Min(SwitchCount(t, i + 1), m)
  {
    if m > 0 {
      SegmentCount(t, lut, i, m - 1);
      assert Recorded(t, lut.x, lut.w, m - 1);
      SwitchSeenBy(t, lut.x[m - 1], m - 1, i);
    }
  }

  /** The image's bit for entry i is the emitted bit. */
  lemma DescribedBit(t: seq<int>, lut: Lut, i: nat)
    requires |t| == TableSize && Describes(t, TableSize, lut) && i < TableSize
    ensures WellFormed(lut)
    ensures BitOf(lut.mslut[i / 32], i % 32) == (Bit(t, i) == 1)
  {
    DescribedBits(t, TableSize, lut);
    assert 32 * (i / 32) + i % 32 == i;
  }

  /** Segment m of a described image starts after switch m - 1 and carries the code of the
      family that switch enters; segment 0 carries the starting family. The family stays
      until the next switch, so the code is the family after entry i whenever exactly m
      switches happened up to and including i. */
  lemma SegmentFamily(t: seq<int>, lut: Lut, i: nat, m: nat)
    requires |t| == TableSize && Describes(t, TableSize, lut) && i < TableSize
    requires m <= SegmentsUsed(t) && m == SwitchCount(t, i + 1)
    ensures lut.w[m] - 1 == Family(t, i + 1)
  {
    if m == 0 {
      FamilySteady(t, 0, i + 1);
    } else {
      assert Recorded(t, lut.x, lut.w, m - 1);
      var x := lut.x[m - 1];
      SwitchSeenBy(t, x, m - 1, i);
      FamilySteady(t, x + 1, i + 1);
    }
  }

  /** The step the image encodes for entry i, from its segment's code and its bit. */
  lemma EncodedDeltaOf(lut: Lut, segments: nat, i: nat, m: nat, f: int, b: bool)
    requires WellFormed(lut) && segments <= 3 && i < TableSize
    requires SegmentOf(lut.x, segments, i) == m && lut.w[m] - 1 == f
    requires BitOf(lut.mslut[i / 32], i % 32) == b
    ensures EncodedDelta(lut, segments, i) == f + (if b then 1 else 0)
  {
  }

  /** While all switches so far are recorded, the image encodes entry i's step exactly. */
  lemma DeltaRecovered(t: seq<int>, lut: Lut, i: nat)
    requires |t| == TableSize && Describes(t, TableSize, lut) && i < TableSize
    requires SwitchCount(t, i + 1) <= 3
    ensures WellFormed(lut)
    ensures EncodedDelta(lut, SegmentsUsed(t), i) == Delta(t, i)
  {
    DescribedBit(t, lut, i);
    var m := SwitchCount(t, i + 1);
    SwitchCountMonotone(t, i + 1, TableSize);
    SegmentCount(t, lut, i, SegmentsUsed(t));
    SegmentFamily(t, lut, i, m);
    var f := Family(t, i + 1);
    EncodedDeltaOf(lut, SegmentsUsed(t), i, m, f, Bit(t, i) == 1);
    assert Bit(t, i) == Delta(t, i) - f;
  }

  /** At the fourth switch the image still encodes the third switch's family, so it encodes
      a step other than the table's. */
  lemma DeltaLostAtFourthSwitch(t: seq<int>, lut: Lut, j: nat)
    requires |t| == TableSize && Describes(t, TableSize, lut) && j < TableSize
    requires SwitchAt(t, j) && SwitchCount(t, j) == 3
    ensures WellFormed(lut) && SegmentsUsed(t) == 3
    ensures EncodedDelta(lut, 3, j) != Delta(t, j)
  {
    DescribedBit(t, lut, j);
    SwitchCountMonotone(t, j + 1, TableSize);
    assert SegmentsUsed(t) == 3;
    SegmentCount(t, lut, j, 3);
    assert Recorded(t, lut.x, lut.w, 2);
    var x := lut.x[2];
    SwitchSeenBy(t, x, 2, j - 1);
    FamilySteady(t, x + 1, j);
    var f := Family(t, j);
    EncodedDeltaOf(lut, 3, j, 3, f, Bit(t, j) == 1);
    assert Bit(t, j) == Delta(t, j) - Family(t, j + 1);
  }

  /** An image describing a table with at most three switches reads back as the table. */
  lemma DescribedDecodes(t: seq<int>, lut: Lut)
    requires |t| == TableSize && Describes(t, TableSize, lut)
    requires SwitchCount(t, TableSize) <= 3
    ensures WellFormed(lut) && Decode(lut, SegmentsUsed(t)) == t
  {
    DescribedBits(t, TableSize, lut);
    forall i | 0 <= i < TableSize
      ensures EncodedDelta(lut, SegmentsUsed(t), i) == Delta(t, i)
    {
      SwitchCountMonotone(t, i + 1, TableSize);
      DeltaRecovered(t, lut, i);
    }
    DecodeAgrees(lut, SegmentsUsed(t), t);
  }

  /** An image describing a table with a fourth switch does not read back as the table. */
  lemma DescribedMisdecodes(t: seq<int>, lut: Lut)
    requires |t| == TableSize && Describes(t, TableSize, lut)
    requires SwitchCount(t, TableSize) > 3
    ensures WellFormed(lut) && Decode(lut, SegmentsUsed(t)) != t
  {
    SwitchNumbered(t, TableSize, 3);
    var j :| 0 <= j < TableSize && SwitchAt(t, j) && SwitchCount(t, j) == 3;
    DeltaLostAtFourthSwitch(t, lut, j);
  }

  /** The round trip of the compressor: a table it compresses reads back from the image
      exactly when the table changes family at most three times. A fourth switch is not
      rejected; its entries are then read back with the wrong family. */
  lemma CompressDecodeRoundTrip(t: seq<int>)
    requires |t| == TableSize
    ensures Compress(t).Success? ==>
      WellFormed(Compress(t).value) &&
      (Decode(Compress(t).value, SegmentsUsed(t)) == t <==> SwitchCount(t, TableSize) <= 3)
  {
    CompressDescribes(t);
    if Compress(t).Success? {
      var lut := Compress(t).value;
      if SwitchCount(t, TableSize) <= 3 {
        DescribedDecodes(t, lut);
      } else {
        DescribedMisdecodes(t, lut);
      }
    }
  }

  /** A table with four family switches in its first four entries (steps +2, -1, +2, -1,
      then flat). */
  function FourSwitchTable(): (t: seq<int>)
    ensures |t| == TableSize
  {
    [2, 1, 3, 2] + seq(TableSize - 4, _ => 2)
  }

  /** The table with four switches is accepted by the compressor but does not read back. */
  lemma FourthSwitchAccepted()
    ensures Compress(FourSwitchTable()).Success?
    ensures WellFormed(Compress(FourSwitchTable()).value)
    ensures Decode(Compress(FourSwitchTable()).value, SegmentsUsed(FourSwitchTable())) != FourSwitchTable()
  {
    var t := FourSwitchTable();
    forall i | 0 <= i < TableSize
      ensures Representable(Delta(t, i))
    {
      if i >= 4 {
        assert t[i] == 2 && t[i - 1] == 2;
      }
    }
    assert Family(t, 1) == 1;
    assert Family(t, 2) == -1;
    assert Family(t, 3) == 1;
    assert Family(t, 4) == -1;
    assert SwitchCount(t, 4) == 4;
    SwitchCountMonotone(t, 4, TableSize);
    CompressDecodeRoundTrip(t);
  }
}
