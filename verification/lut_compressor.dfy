/** The MSLUT compressor: a greedy state machine that walks the 256 wave-table entries,
    emits one bit per entry against the current delta family, switches family when a delta
    falls outside it, records up to three segment boundaries, and packs the bits into eight
    32-bit MSLUT words. */
module LutCompressor {
  import opened Wrappers
  import opened Tmc2130
  import opened Bits
  import opened DeltaFamilies
  import opened LutPacking

  /** The variables of the compression loop between two entries. */
  datatype Encoder = Encoder(
    d0: int,            // lower delta of the current family (bit 0)
    d1: int,            // upper delta of the current family (bit 1)
    s: nat,             // number of segment boundaries recorded so far
    w: seq<int>,        // MSLUTSEL width codes w0..w3
    x: seq<int>,        // MSLUTSEL segment boundaries x1..x3
    va: int,            // previous table value
    reg: bv32,          // MSLUT word being filled
    words: seq<bv32>)   // MSLUT words written so far, mslut0 first

  /** The state before the first entry. */
  const Start: Encoder := Encoder(0, 1, 0, [1, 1, 1, 1], [255, 255, 255], Sin0, 0, [])

  /** What holds of the encoder before entry i: the family is one of the four the
      hardware has, every width code fits two bits, at most three boundaries are recorded,
      recorded boundaries are earlier entries in increasing order, and the rest of MSLUTSEL
      keeps its initial value. */
  predicate Valid(e: Encoder, i: nat)
  {
    && e.d1 == e.d0 + 1 && -1 <= e.d0 <= 2
    && |e.w| == 4 && |e.x| == 3 && e.s <= 3
    && (forall k :: 0 <= k < 4 ==> 0 <= e.w[k] <= 3)
    && e.w[0] == 1
    && (forall k :: e.s < k < 4 ==> e.w[k] == 1)
    && (forall k :: e.s <= k < 3 ==> e.x[k] == 255)
    && (forall k :: 0 <= k < e.s ==> 0 <= e.x[k] < i)
    && (forall j, k :: 0 <= j < k < e.s ==> e.x[j] < e.x[k])
  }

  /** A family switch at entry i: the new deltas, the width code written to w[s+1] while
      there is one, and the boundary x[s] = i recorded while fewer than three are. */
  function SwitchTo(e: Encoder, i: nat, d0: int, d1: int, code: int): Encoder
    requires |e.w| == 4 && |e.x| == 3
  {
    var w := if e.s + 1 < 4 then e.w[e.s + 1 := code] else e.w;
    var e' := e.(d0 := d0, d1 := d1, w := w);
    if e.s < 3 then e'.(x := e.x[e.s := i], s := e.s + 1) else e'
  }

  /** The emitted bit of one entry and the encoder after it. */
  datatype Emitted = Emitted(bit: int, next: Encoder)

  /** The delta encoding of entry i with value v: None when the loop breaks (b < 0). */
  function Classify(e: Encoder, i: nat, v: int): (r: Option<Emitted>)
    requires Valid(e, i)
    ensures r.Some? <==> Representable(v - e.va)
    ensures r.Some? ==> Valid(r.value.next, i + 1)
    ensures r.Some? ==> r.value.bit == 0 || r.value.bit == 1
    ensures r.Some? ==> (r.value.bit == 0 <==> v - e.va == r.value.next.d0)
    ensures r.Some? ==> (r.value.bit == 1 <==> v - e.va == r.value.next.d1)
    ensures r.Some? ==> r.value.next.d0 == NextFamily(e.d0, v - e.va)
    ensures r.Some? ==> r.value.next.va == v
    ensures r.Some? ==> r.value.next.reg == e.reg && r.value.next.words == e.words
    ensures r.Some? && r.value.next.d0 == e.d0 ==> r.value.next == e.(va := v)
    ensures r.Some? && r.value.next.d0 != e.d0 && e.s < 3 ==>
      && r.value.next.s == e.s + 1
      && r.value.next.x == e.x[e.s := i]
      && r.value.next.w == e.w[e.s + 1 := r.value.next.d0 + 1]
    ensures r.Some? && r.value.next.d0 != e.d0 && e.s == 3 ==>
      r.value.next.s == 3 && r.value.next.w == e.w && r.value.next.x == e.x
  {
    var dA := v - e.va;
    var e := e.(va := v);
    if dA == e.d0 then Some(Emitted(0, e))
    else if dA == e.d1 then Some(Emitted(1, e))
    else if dA < e.d0 then
      if dA == -1 then Some(Emitted(0, SwitchTo(e, i, -1, 0, 0)))
      else if dA == 0 then Some(Emitted(0, SwitchTo(e, i, 0, 1, 1)))
      else if dA == 1 then Some(Emitted(0, SwitchTo(e, i, 1, 2, 2)))
      else None
    else if dA > e.d1 then
      if dA == 1 then Some(Emitted(1, SwitchTo(e, i, 0, 1, 1)))
      else if dA == 2 then Some(Emitted(1, SwitchTo(e, i, 1, 2, 2)))
      else if dA == 3 then Some(Emitted(1, SwitchTo(e, i, 2, 3, 3)))
      else None
    else None
  }

  /** One iteration of the compression loop for entry i with value v: the register is
      cleared at the start of each block of 32 (i & 31 == 0), the entry is classified, the
      loop breaks on b < 0 or s > 3, a 1 bit sets bit 31, and the register is written out
      after the 32nd entry of a block (i & 31 == 31) or else shifted right by one. */
  function Step(e: Encoder, i: nat, v: int): (r: Option<Emitted>)
    requires Valid(e, i)
    ensures r.Some? <==> Representable(v - e.va)
    ensures r.Some? ==> Valid(r.value.next, i + 1)
  {
    var reg := if i % 32 == 0 then 0 else e.reg;
    match Classify(e, i, v)
    case None => None
    case Some(Emitted(b, next)) =>
      if next.s > 3 then None
      else
        if i % 32 == 31 then
          var word := SetTop(reg, b == 1);
          Some(Emitted(b, next.(reg := word, words := next.words + [word])))
        else Some(Emitted(b, next.(reg := ShiftIn(reg, b == 1))))
  }

  /** How the compression loop ends: after entry 255, or at the entry where it broke, with
      the encoder as it was before that entry. */
  datatype Halt = Finished(state: Encoder) | Broke(index: nat, state: Encoder)

  /** The compression loop from entry i on. */
  function Run(t: seq<int>, i: nat, e: Encoder): Halt
    requires |t| == TableSize && i <= TableSize && Valid(e, i)
    decreases TableSize - i
  {
    if i == TableSize then Finished(e)
    else match Step(e, i, t[i])
      case None => Broke(i, e)
      case Some(em) => Run(t, i + 1, em.next)
  }

  /** The register image: MSLUT words mslut0.., MSLUTSEL widths w0..w3 and boundaries
      x1..x3, and MSLUTSTART start_sin and start_sin90. */
  datatype Lut = Lut(mslut: seq<bv32>, w: seq<int>, x: seq<int>, startSin: int, startSin90: int)

  /** The table could not be encoded: the loop broke at entry `index`, and `written` is the
      image that still reached the registers (MSLUTSTART, the MSLUT words completed before
      `index`, and MSLUTSEL as it stood). */
  datatype Unrepresentable = Unrepresentable(index: nat, written: Lut)

  function Image(e: Encoder): Lut
  {
    Lut(e.words, e.w, e.x, Sin0, Amplitude)
  }

  function Min(a: int, b: int): int
  {
    if a <= b then a else b
  }

  /** The bits the reference encoding emits for entries lo .. hi-1. */
  function BitsBetween(t: seq<int>, lo: nat, hi: nat): (bs: seq<bool>)
    requires lo <= hi <= |t|
    ensures |bs| == hi - lo
    ensures forall j :: 0 <= j < hi - lo ==> bs[j] == (Bit(t, lo + j) == 1)
  {
    seq(hi - lo, j requires 0 <= j < hi - lo => Bit(t, lo + j) == 1)
  }

  /** Boundary k of the encoder is the entry of switch number k (counting from 0), and the
      width code after it is the code of the family that switch enters. */
  ghost predicate Recorded(t: seq<int>, x: seq<int>, w: seq<int>, k: nat)
    requires |x| == 3 && |w| == 4 && k < 3
  {
    && 0 <= x[k] < |t|
    && SwitchAt(t, x[k])
    && SwitchCount(t, x[k]) == k
    && w[k + 1] == Family(t, x[k] + 1) + 1
  }

  /** The encoder before entry i agrees with the reference encoding of the first i entries. */
  ghost predicate Tracks(t: seq<int>, i: nat, e: Encoder)
    requires i <= |t|
  {
    && Valid(e, i)
    && RepresentableUpTo(t, i)
    && e.va == Prev(t, i)
    && e.d0 == Family(t, i)
    && e.s == Min(SwitchCount(t, i), 3)
    && (forall k :: 0 <= k < e.s ==> Recorded(t, e.x, e.w, k))
    && WordsPacked(t, i, e.words)
    && (i % 32 != 0 ==> e.reg == Acc(BitsBetween(t, i - i % 32, i)))
  }

  lemma StartTracks(t: seq<int>)
    ensures Tracks(t, 0, Start)
  {
  }

  /** The bits of a block grow by the bit of the next entry. */
  lemma BitsBetweenSnoc(t: seq<int>, lo: nat, hi: nat)
    requires lo <= hi < |t|
    ensures BitsBetween(t, lo, hi + 1) == BitsBetween(t, lo, hi) + [Bit(t, hi) == 1]
    ensures BitsBetween(t, lo, hi + 1)[..hi - lo] == BitsBetween(t, lo, hi)
  {
    assert BitsBetween(t, lo, hi + 1) == BitsBetween(t, lo, hi) + [Bit(t, hi) == 1];
  }

  /** One entry keeps the encoder in step with the reference encoding: it breaks exactly on
      an unrepresentable delta, and otherwise emits the reference bit. */
  lemma StepTracks(t: seq<int>, i: nat, e: Encoder)
    requires i < |t| && Tracks(t, i, e)
    ensures Step(e, i, t[i]).None? <==> !Representable(Delta(t, i))
    ensures Step(e, i, t[i]).Some? ==>
      Step(e, i, t[i]).value.bit == Bit(t, i) && Tracks(t, i + 1, Step(e, i, t[i]).value.next)
  {
    var r := Classify(e, i, t[i]);
    if r.Some? {
      var em := Step(e, i, t[i]).value;
      var n := r.value.next;
      assert em.bit == r.value.bit;
      assert Delta(t, i) == t[i] - e.va;
      assert n.d0 == Family(t, i + 1);
      assert em.bit == Bit(t, i);
      assert RepresentableUpTo(t, i + 1);
      SwitchBookkeeping(t, i, e, n);
      PackingTracks(t, i, e, em);
    }
  }

  /** The segment bookkeeping of one classified entry. */
  lemma SwitchBookkeeping(t: seq<int>, i: nat, e: Encoder, n: Encoder)
    requires i < |t| && |e.x| == 3 && |e.w| == 4
    requires e.va == Prev(t, i) && e.d0 == Family(t, i) && e.s == Min(SwitchCount(t, i), 3)
    requires forall k :: 0 <= k < e.s ==> Recorded(t, e.x, e.w, k)
    requires n.d0 == NextFamily(e.d0, t[i] - e.va)
    requires n.d0 == e.d0 ==> n.x == e.x && n.w == e.w && n.s == e.s
    requires n.d0 != e.d0 && e.s < 3 ==>
      n.s == e.s + 1 && n.x == e.x[e.s := i] && n.w == e.w[e.s + 1 := n.d0 + 1]
    requires n.d0 != e.d0 && e.s == 3 ==> n.x == e.x && n.w == e.w && n.s == e.s
    ensures n.s == Min(SwitchCount(t, i + 1), 3)
    ensures forall k :: 0 <= k < n.s ==> Recorded(t, n.x, n.w, k)
  {
    var d := Family(t, i + 1);
    assert n.d0 == d;
    if n.d0 == e.d0 {
      assert n.x == e.x && n.w == e.w && n.s == e.s;
    } else if e.s < 3 {
      assert SwitchAt(t, i);
      RecordSwitch(t, i, e.x, e.w, e.s, d, n.x, n.w);
    } else {
      assert SwitchAt(t, i);
      assert n.x == e.x && n.w == e.w && n.s == e.s;
    }
  }

  /** Recording switch number s at entry i keeps the earlier records and adds its own. */
  lemma RecordSwitch(t: seq<int>, i: nat, x: seq<int>, w: seq<int>, s: nat, d: int,
                      x': seq<int>, w': seq<int>)
    requires i < |t| && |x| == 3 && |w| == 4 && s < 3
    requires SwitchAt(t, i) && SwitchCount(t, i) == s && d == Family(t, i + 1)
    requires forall k :: 0 <= k < s ==> Recorded(t, x, w, k)
    requires x' == x[s := i] && w' == w[s + 1 := d + 1]
    ensures forall k :: 0 <= k < s + 1 ==> Recorded(t, x', w', k)
  {
    forall k | 0 <= k < s + 1
      ensures Recorded(t, x', w', k)
    {
      if k < s {
        assert Recorded(t, x, w, k);
      }
    }
  }

  /** The words written so far are the packed blocks of the first i entries. */
  ghost predicate WordsPacked(t: seq<int>, i: nat, words: seq<bv32>)
    requires i <= |t|
  {
    && |words| == i / 32
    && (forall k :: 0 <= k < |words| ==> words[k] == Word(BitsBetween(t, 32 * k, 32 * k + 32)))
  }

  /** The 32nd entry of a block: setting its bit completes the word of the block. */
  lemma PackingFlush(t: seq<int>, i: nat, reg0: bv32, words: seq<bv32>)
    requires i < |t| && i % 32 == 31 && WordsPacked(t, i, words)
    requires reg0 == Acc(BitsBetween(t, i - 31, i))
    ensures WordsPacked(t, i + 1, words + [SetTop(reg0, Bit(t, i) == 1)])
  {
    var lo := i - 31;
    BitsBetweenSnoc(t, lo, i);
    var bs := BitsBetween(t, lo, i + 1);
    assert bs[..31] == BitsBetween(t, lo, i);
    assert SetTop(reg0, Bit(t, i) == 1) == Word(bs);
    assert lo == 32 * |words|;
  }

  /** Any other entry: setting its bit and shifting extends the block's register. */
  lemma PackingShift(t: seq<int>, lo: nat, i: nat, reg0: bv32)
    requires lo <= i < |t|
    requires reg0 == Acc(BitsBetween(t, lo, i))
    ensures ShiftIn(reg0, Bit(t, i) == 1) == Acc(BitsBetween(t, lo, i + 1))
  {
    BitsBetweenSnoc(t, lo, i);
    AccSnoc(BitsBetween(t, lo, i), Bit(t, i) == 1);
  }

  /** The register and the written words of one entry. */
  lemma PackingTracks(t: seq<int>, i: nat, e: Encoder, em: Emitted)
    requires i < |t| && Tracks(t, i, e)
    requires Step(e, i, t[i]) == Some(em) && em.bit == Bit(t, i)
    ensures WordsPacked(t, i + 1, em.next.words)
    ensures (i + 1) % 32 != 0 ==> em.next.reg == Acc(BitsBetween(t, i + 1 - (i + 1) % 32, i + 1))
  {
    var reg0 := if i % 32 == 0 then 0 else e.reg;
    assert WordsPacked(t, i, e.words);
    if i % 32 == 31 {
      PackingFlush(t, i, reg0, e.words);
    } else {
      assert i + 1 - (i + 1) % 32 == i - i % 32;
      PackingShift(t, i - i % 32, i, reg0);
    }
  }

  /** The loop from a tracking state: it finishes with every delta representable, or breaks
      at the first unrepresentable one with the state before that entry. */
  lemma {:induction false} RunTracks(t: seq<int>, i: nat, e: Encoder)
    requires |t| == TableSize && i <= TableSize && Tracks(t, i, e)
    ensures Run(t, i, e).Finished? ==>
      Tracks(t, TableSize, Run(t, i, e).state)
    ensures Run(t, i, e).Broke? ==>
      && i <= Run(t, i, e).index < TableSize
      && Tracks(t, Run(t, i, e).index, Run(t, i, e).state)
      && !Representable(Delta(t, Run(t, i, e).index))
    decreases TableSize - i
  {
    if i < TableSize {
      StepTracks(t, i, e);
      if Step(e, i, t[i]).Some? {
        RunTracks(t, i + 1, Step(e, i, t[i]).value.next);
      }
    }
  }

  /** Compression of a 256-entry table. It fails exactly when some step between
      consecutive entries (starting from SIN0) lies outside [-1, 3], and then at the first
      such entry. */
  function Compress(t: seq<int>): (r: Result<Lut, Unrepresentable>)
    requires |t| == TableSize
    ensures r.Failure? <==> !RepresentableUpTo(t, TableSize)
    ensures r.Failure? ==>
      && r.error.index < TableSize
      && !Representable(Delta(t, r.error.index))
      && RepresentableUpTo(t, r.error.index)
  {
    StartTracks(t);
    RunTracks(t, 0, Start);
    match Run(t, 0, Start)
    case Finished(e) => Success(Image(e))
    case Broke(i, e) => Failure(Unrepresentable(i, Image(e)))
  }

  /** The number of boundaries the compressor records for table t. */
  function SegmentsUsed(t: seq<int>): (n: nat)
    requires |t| == TableSize
    ensures n <= 3
  {
    Min(SwitchCount(t, TableSize), 3)
  }

  /** The register image agrees with the reference encoding of the first n entries: the
      completed words hold the emitted bits, the recorded boundaries are the first switches
      with the codes of the families they enter, the rest of MSLUTSEL keeps its initial
      value, and MSLUTSTART holds SIN0 and the amplitude. */
  ghost predicate Describes(t: seq<int>, n: nat, lut: Lut)
    requires n <= |t|
  {
    && WordsPacked(t, n, lut.mslut)
    && |lut.w| == 4 && |lut.x| == 3
    && lut.w[0] == 1
    && (forall k :: 0 <= k < 4 ==> 0 <= lut.w[k] <= 3)
    && (forall k :: 0 <= k < Min(SwitchCount(t, n), 3) ==> Recorded(t, lut.x, lut.w, k))
    && (forall k :: Min(SwitchCount(t, n), 3) <= k < 3 ==> lut.x[k] == 255 && lut.w[k + 1] == 1)
    && lut.startSin == Sin0 && lut.startSin90 == Amplitude
  }

  lemma TracksDescribes(t: seq<int>, n: nat, e: Encoder)
    requires n <= |t| && Tracks(t, n, e)
    ensures Describes(t, n, Image(e))
  {
  }

  /** What reaches the registers: on success the image of the whole table, on failure the
      image of the entries before the failing one. */
  lemma CompressDescribes(t: seq<int>)
    requires |t| == TableSize
    ensures Compress(t).Success? ==> Describes(t, TableSize, Compress(t).value)
    ensures Compress(t).Failure? ==>
      Compress(t).error.index < TableSize &&
      Describes(t, Compress(t).error.index, Compress(t).error.written)
  {
    StartTracks(t);
    RunTracks(t, 0, Start);
    match Run(t, 0, Start)
    case Finished(e) => TracksDescribes(t, TableSize, e);
    case Broke(i, e) => TracksDescribes(t, i, e);
  }

  /** The completed words of a described prefix hold the emitted bits, entry 32k + j in
      bit j of word k. */
  lemma DescribedBits(t: seq<int>, n: nat, lut: Lut)
    requires n <= |t| && Describes(t, n, lut)
    ensures |lut.mslut| == n / 32
    ensures forall k, j :: 0 <= k < n / 32 && 0 <= j < 32 ==>
      BitOf(lut.mslut[k], j) == (Bit(t, 32 * k + j) == 1)
  {
    forall k, j | 0 <= k < n / 32 && 0 <= j < 32
      ensures BitOf(lut.mslut[k], j) == (Bit(t, 32 * k + j) == 1)
    {
      var bs := BitsBetween(t, 32 * k, 32 * k + 32);
      assert lut.mslut[k] == Word(bs);
      assert bs[j] == (Bit(t, 32 * k + j) == 1);
    }
  }

  /** The recorded boundaries of a described prefix are strictly increasing. */
  lemma DescribedBoundariesIncrease(t: seq<int>, n: nat, lut: Lut)
    requires n <= |t| && Describes(t, n, lut)
    ensures forall j, k :: 0 <= j < k < Min(SwitchCount(t, n), 3) ==> lut.x[j] < lut.x[k]
  {
    forall j, k | 0 <= j < k < Min(SwitchCount(t, n), 3)
      ensures lut.x[j] < lut.x[k]
    {
      assert Recorded(t, lut.x, lut.w, j) && Recorded(t, lut.x, lut.w, k);
      if lut.x[k] <= lut.x[j] {
        SwitchCountMonotone(t, lut.x[k], lut.x[j]);
        assert false;
      }
    }
  }

  /** Bit j of MSLUT word k is the bit emitted for entry 32k + j. */
  lemma CompressPacksBits(t: seq<int>)
    requires |t| == TableSize
    ensures Compress(t).Success? ==>
      && |Compress(t).value.mslut| == WordCount
      && forall k, j :: 0 <= k < WordCount && 0 <= j < 32 ==>
           BitOf(Compress(t).value.mslut[k], j) == (Bit(t, 32 * k + j) == 1)
  {
    CompressDescribes(t);
    if Compress(t).Success? {
      DescribedBits(t, TableSize, Compress(t).value);
    }
  }

  /** MSLUTSEL of an image whose first m boundaries are recorded, for the first n entries of
      t: every width code fits two bits and w0 selects the starting family; boundary k < m is
      the entry of switch k, before entry n and strictly after boundary k - 1, and the code
      after it is that of the family the switch enters; the other boundaries stay 255 with
      code 1. */
  ghost predicate SelectsSegments(t: seq<int>, n: nat, lut: Lut, m: nat)
  {
    && |lut.w| == 4 && |lut.x| == 3 && m <= 3
    && lut.w[0] == 1
    && (forall k :: 0 <= k < 4 ==> 0 <= lut.w[k] <= 3)
    && (forall k :: 0 <= k < m ==>
          && 0 <= lut.x[k] < n && lut.x[k] < |t|
          && SwitchAt(t, lut.x[k]) && SwitchCount(t, lut.x[k]) == k
          && lut.w[k + 1] == Family(t, lut.x[k] + 1) + 1)
    && (forall j, k :: 0 <= j < k < m ==> lut.x[j] < lut.x[k])
    && (forall k :: m <= k < 3 ==> lut.x[k] == 255 && lut.w[k + 1] == 1)
  }

  /** A described prefix selects its segments: the m = min(switches, 3) recorded boundaries
      are its first switches, in order, with the codes of the families they enter. */
  lemma DescribedSegments(t: seq<int>, n: nat, lut: Lut, m: nat)
    requires n <= |t| && Describes(t, n, lut) && m == Min(SwitchCount(t, n), 3)
    ensures SelectsSegments(t, n, lut, m)
  {
    DescribedBoundariesIncrease(t, n, lut);
    forall k | 0 <= k < m
      ensures 0 <= lut.x[k] < n
      ensures SwitchAt(t, lut.x[k]) && SwitchCount(t, lut.x[k]) == k
      ensures lut.w[k + 1] == Family(t, lut.x[k] + 1) + 1
    {
      assert Recorded(t, lut.x, lut.w, k);
      if lut.x[k] >= n {
        SwitchCountMonotone(t, n, lut.x[k]);
        assert false;
      }
    }
  }

  /** MSLUTSEL of a compressed table: every width code fits two bits and w0 selects the
      starting family; boundary k (for each of the first three switches) is the entry of
      switch k, strictly after the previous boundary, and the code after it is that of the
      family the switch enters; unused boundaries stay 255 with code 1. */
  lemma CompressSegments(t: seq<int>)
    requires |t| == TableSize
    ensures Compress(t).Success? ==> SelectsSegments(t, TableSize, Compress(t).value, SegmentsUsed(t))
  {
    CompressDescribes(t);
    if Compress(t).Success? {
      DescribedSegments(t, TableSize, Compress(t).value, SegmentsUsed(t));
    }
  }

  /** A failed compression still leaves its mark: MSLUTSTART, the words of the blocks
      completed before the failing entry, and MSLUTSEL for the switches before it. */
  lemma FailedCompressWritesPrefix(t: seq<int>)
    requires |t| == TableSize
    ensures Compress(t).Failure? ==>
      var u := Compress(t).error;
      && u.written.startSin == Sin0 && u.written.startSin90 == Amplitude
      && |u.written.mslut| == u.index / 32
      && (forall k, j :: 0 <= k < u.index / 32 && 0 <= j < 32 ==>
            BitOf(u.written.mslut[k], j) == (Bit(t, 32 * k + j) == 1))
      && SelectsSegments(t, u.index, u.written, Min(SwitchCount(t, u.index), 3))
  {
    CompressDescribes(t);
    if Compress(t).Failure? {
      var u := Compress(t).error;
      var n, lut := u.index, u.written;
      assert Describes(t, n, lut);
      DescribedBits(t, n, lut);
      DescribedSegments(t, n, lut, Min(SwitchCount(t, n), 3));
    }
  }

  /** A table whose first entry jumps 10 above SIN0 is rejected at entry 0, with only
      MSLUTSTART and the initial MSLUTSEL written. */
  lemma CompressRejectsSteepStart()
    ensures var t := seq(TableSize, _ => 10);
      && Compress(t).Failure?
      && Compress(t).error.index == 0
      && Compress(t).error.written == Lut([], [1, 1, 1, 1], [255, 255, 255], Sin0, Amplitude)
  {
    var t := seq(TableSize, _ => 10);
    assert !Representable(Delta(t, 0));
    CompressDescribes(t);
  }
}
