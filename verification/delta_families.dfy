/** Reference definitions of the MSLUT delta encoding, independent of the encoder's state
    machine: the delta of each table entry, the delta family a greedy encoder must be in
    after each entry, the bit it emits, and where it switches family.

    A family is named by its lower delta d0; it represents the deltas d0 (bit 0) and
    d0 + 1 (bit 1). The register code of family d0 is d0 + 1 (0: -1/0, 1: 0/+1, 2: +1/+2,
    3: +2/+3). Encoding starts in family 0 from the value SIN0. */
module DeltaFamilies {
  import opened Tmc2130

  /** The value entry i is compared against: the previous entry, or SIN0 before the first. */
  function Prev(t: seq<int>, i: nat): int
    requires i <= |t|
  {
    if i == 0 then Sin0 else t[i - 1]
  }

  /** The step from the previous value to entry i. */
  function Delta(t: seq<int>, i: nat): int
    requires i < |t|
  {
    t[i] - Prev(t, i)
  }

  /** The deltas some family of the hardware can express. */
  predicate Representable(delta: int)
  {
    -1 <= delta <= 3
  }

  /** Every step of the first n entries is representable. */
  predicate RepresentableUpTo(t: seq<int>, n: nat)
    requires n <= |t|
  {
    forall i :: 0 <= i < n ==> Representable(Delta(t, i))
  }

  /** Family d0 expresses delta. */
  predicate Covers(d0: int, delta: int)
  {
    d0 <= delta <= d0 + 1
  }

  function Dist(a: int, b: int): nat
  {
    if a <= b then b - a else a - b
  }

  /** The family a greedy encoder in family d0 is in after seeing delta: it stays when d0
      covers delta, and otherwise moves to the covering family nearest to d0. */
  function NextFamily(d0: int, delta: int): (r: int)
    ensures Covers(r, delta)
    ensures r == d0 <==> Covers(d0, delta)
  {
    if d0 <= delta <= d0 + 1 then d0
    else if delta < d0 then delta
    else delta - 1
  }

  /** No family covering delta is nearer to d0 than the one NextFamily picks. */
  lemma NextFamilyIsNearest(d0: int, delta: int, f: int)
    requires Covers(f, delta)
    ensures Dist(NextFamily(d0, delta), d0) <= Dist(f, d0)
  {
  }

  /** The family after the first n entries have been encoded. */
  function Family(t: seq<int>, n: nat): int
    requires n <= |t|
  {
    if n == 0 then 0 else NextFamily(Family(t, n - 1), Delta(t, n - 1))
  }

  /** The bit emitted for entry i: 0 for the lower delta of its family, 1 for the upper. */
  function Bit(t: seq<int>, i: nat): (b: int)
    requires i < |t|
    ensures b == 0 || b == 1
  {
    Delta(t, i) - Family(t, i + 1)
  }

  /** Entry i forces a change of family. */
  predicate SwitchAt(t: seq<int>, i: nat)
    requires i < |t|
  {
    Family(t, i + 1) != Family(t, i)
  }

  /** The number of family switches among the first n entries. */
  function SwitchCount(t: seq<int>, n: nat): nat
    requires n <= |t|
  {
    if n == 0 then 0 else SwitchCount(t, n - 1) + (if SwitchAt(t, n - 1) then 1 else 0)
  }

  /** Switch counts never decrease, and an entry that switches is counted by every later
      prefix. */
  lemma {:induction false} SwitchCountMonotone(t: seq<int>, j: nat, n: nat)
    requires j <= n <= |t|
    ensures SwitchCount(t, j) <= SwitchCount(t, n)
    ensures j < n && SwitchAt(t, j) ==> SwitchCount(t, j) < SwitchCount(t, n)
  {
    if j < n {
      SwitchCountMonotone(t, j, n - 1);
    }
  }

  /** If more than k switches happen among the first n entries, some entry is the switch
      that brings the count from k to k + 1. */
  lemma {:induction false} SwitchNumbered(t: seq<int>, n: nat, k: nat)
    requires n <= |t| && SwitchCount(t, n) > k
    ensures exists j :: 0 <= j < n && SwitchAt(t, j) && SwitchCount(t, j) == k
  {
    if SwitchCount(t, n - 1) > k {
      SwitchNumbered(t, n - 1, k);
    } else {
      assert SwitchAt(t, n - 1) && SwitchCount(t, n - 1) == k;
    }
  }

  /** Families reached through representable deltas are the four the hardware has. */
  lemma {:induction false} FamilyInRange(t: seq<int>, n: nat)
    requires n <= |t| && RepresentableUpTo(t, n)
    ensures -1 <= Family(t, n) <= 2
  {
    if n > 0 {
      FamilyInRange(t, n - 1);
      assert Representable(Delta(t, n - 1));
    }
  }

  /** Between two prefixes with the same switch count the family does not change. */
  lemma {:induction false} FamilySteady(t: seq<int>, a: nat, b: nat)
    requires a <= b <= |t| && SwitchCount(t, a) == SwitchCount(t, b)
    ensures Family(t, a) == Family(t, b)
  {
    if a < b {
      SwitchCountMonotone(t, a, b - 1);
      SwitchCountMonotone(t, b - 1, b);
      FamilySteady(t, a, b - 1);
    }
  }

  /** Switch number k (at entry x) has happened by entry i exactly when x <= i. */
  lemma SwitchSeenBy(t: seq<int>, x: nat, k: nat, i: nat)
    requires x < |t| && i < |t| && SwitchAt(t, x) && SwitchCount(t, x) == k
    ensures x <= i <==> k < SwitchCount(t, i + 1)
  {
    if x <= i {
      SwitchCountMonotone(t, x + 1, i + 1);
    } else {
      SwitchCountMonotone(t, i + 1, x);
    }
  }
}
