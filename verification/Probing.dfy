/** The triangular probe sequence of an open-addressed table of 2^k buckets. */
module Probing {
  import opened Bits
  import opened Pigeonhole

  /** 1 + 2 + ... + i. */
  function Tri(i: nat): nat { if i == 0 then 0 else Tri(i - 1) + i }

  /** The i-th bucket probed for hash value h. */
  function Slot(h: nat, i: nat, k: nat): (p: nat)
    ensures p < Pow2(k)
  {
    Low(h + Tri(i), k)
  }

  /** Each probe is reached from the one before by adding the growing step and masking. */
  lemma SlotNext(h: nat, i: nat, k: nat)
    ensures And(h, Pow2(k) - 1) == Slot(h, 0, k)
    ensures And(Slot(h, i, k) + (i + 1), Pow2(k) - 1) == Slot(h, i + 1, k)
  {
    hide Low, And;
    AndMask(h, k);
    AndMask(Slot(h, i, k) + (i + 1), k);
    LowAdd(i + 1, h + Tri(i), k);
  }

  lemma {:induction false} TriClosed(i: nat)
    ensures 2 * Tri(i) == i * (i + 1)
  {
    if i > 0 { TriClosed(i - 1); }
  }

  lemma OddProduct(x: nat, y: nat)
    requires y % 2 == 1
    ensures x * y % 2 == x % 2
  {
    var z := y / 2;
    assert y == 2 * z + 1;
    assert x * y == x * (2 * z) + x;
    assert x * (2 * z) == 2 * (x * z);
  }

  lemma DoubleProduct(x: nat, y: nat)
    ensures (2 * x) * y == 2 * (x * y)
  {
  }

  /** 2^m divides x * y and y is odd: then 2^m divides x. */
  lemma {:induction false} OddFactor(x: nat, y: nat, p: nat, m: nat)
    requires y % 2 == 1 && p == x * y && Low(p, m) == 0
    ensures Low(x, m) == 0
    decreases m
  {
    if m > 0 {
      OddProduct(x, y);
      assert p % 2 == 0;
      var x' := x / 2;
      assert x == 2 * x';
      DoubleProduct(x', y);
      OddFactor(x', y, p / 2, m - 1);
    }
  }

  /** 2 * (Tri(j) - Tri(i)) as a product. */
  lemma TriDifference(i: nat, j: nat)
    requires i < j
    ensures Tri(i) <= Tri(j) && 2 * (Tri(j) - Tri(i)) == (j - i) * (i + j + 1)
  {
    TriClosed(i);
    TriClosed(j);
    var d := j - i;
    calc {
      j * (j + 1) - i * (i + 1);
      (i + d) * (i + d + 1) - i * (i + 1);
      d * (2 * i + d + 1);
    }
    assert d * (2 * i + d + 1) >= 0;
  }

  lemma LowDouble(x: nat, k: nat)
    ensures Low(2 * x, k + 1) == 2 * Low(x, k)
  {
  }

  lemma SmallMultiple(x: nat, k: nat)
    requires 0 < x < Pow2(k)
    ensures Low(x, k) != 0
  {
    LowOfSmall(x, k);
  }

  lemma LowZero(k: nat)
    ensures Low(0, k) == 0
  {
    LowOfSmall(0, k);
  }

  /** A product of two numbers below 2^(k+1), one odd and one even, is no multiple of 2^(k+1). */
  lemma NoMultiple(x: nat, y: nat, p: nat, k: nat)
    requires 0 < x < Pow2(k) && 0 < y < Pow2(k) && x % 2 != y % 2 && p == x * y
    ensures Low(p, k) != 0
  {
    if Low(p, k) == 0 {
      if y % 2 == 1 {
        OddFactor(x, y, p, k);
        SmallMultiple(x, k);
      } else {
        assert p == y * x;
        OddFactor(y, x, p, k);
        SmallMultiple(y, k);
      }
    }
  }

  /** No bucket is probed twice in the first 2^k probes. */
  lemma SlotsDistinct(h: nat, i: nat, j: nat, k: nat)
    requires i < j < Pow2(k)
    ensures Slot(h, i, k) != Slot(h, j, k)
  {
    hide Low, Tri, Pow2;
    Pow2Next(k);
    if Slot(h, i, k) == Slot(h, j, k) {
      TriDifference(i, j);
      var d := Tri(j) - Tri(i);
      LowCancel(0, d, h + Tri(i), k);
      LowZero(k);
      LowDouble(d, k);
      NoMultiple(j - i, i + j + 1, 2 * d, k + 1);
    }
  }

  /** Every bucket is probed: the first 2^k probes visit each of the 2^k buckets exactly once. */
  lemma SlotsCover(h: nat, p: nat, k: nat) returns (i: nat)
    requires p < Pow2(k)
    ensures i < Pow2(k) && Slot(h, i, k) == p
    ensures forall j: nat :: j < Pow2(k) && Slot(h, j, k) == p ==> j == i
  {
    hide Slot, Pow2;
    var all := seq(Pow2(k), j requires 0 <= j < Pow2(k) => Slot(h, j, k));
    forall j | 0 <= j < |all| ensures all[j] < |all| { assert Slot(h, j, k) < Pow2(k); }
    forall a, b | 0 <= a < b < |all| ensures all[a] != all[b] { SlotsDistinct(h, a, b, k); }
    DistinctIsOnto(all, p);
    i :| 0 <= i < |all| && all[i] == p;
    forall j: nat | j < Pow2(k) && Slot(h, j, k) == p ensures j == i {
      if j < i { SlotsDistinct(h, j, i, k); }
      if i < j { SlotsDistinct(h, i, j, k); }
    }
  }
}
