/** `permute` and `scrambleinit`: the fixed scramble of the perfect hash. */
module Scramble {
  import opened Bits
  import opened Pigeonhole

  /** x = (x + (x << c)) & mask, on a 32-bit x. */
  function AddShift(x: nat, c: nat, nbits: nat): nat { Low(Low(x + Low(Shl(x, c), 32), 32), nbits) }

  /** x = x ^ (x >> c). */
  function XorShift(x: nat, c: nat): nat { Xor(x, Shr(x, c)) }

  /** One of the twenty iterations of permute. */
  function Round(x: nat, nbits: nat): nat {
    XorShift(AddShift(XorShift(AddShift(x, 1 + nbits / 2, nbits), 1 + nbits / 3), 1 + nbits / 4, nbits), 1 + nbits / 5)
  }

  function Rounds(x: nat, nbits: nat, n: nat): nat {
    if n == 0 then x else Round(Rounds(x, nbits, n - 1), nbits)
  }

  function PermuteSpec(x: nat, nbits: nat): nat { Rounds(x, nbits, 20) }

  method Permute(x0: nat, nbits: nat) returns (x: nat)
    ensures x == PermuteSpec(x0, nbits)
  {
    hide AddShift, XorShift;
    x := x0;
    var const2, const3 := 1 + nbits / 2, 1 + nbits / 3;
    var const4, const5 := 1 + nbits / 4, 1 + nbits / 5;
    for i := 0 to 20
      invariant x == Rounds(x0, nbits, i)
    {
      x := AddShift(x, const2, nbits);
      x := XorShift(x, const3);
      x := AddShift(x, const4, nbits);
      x := XorShift(x, const5);
    }
  }

  lemma AddShiftPlain(x: nat, c: nat, nbits: nat)
    requires nbits <= 32
    ensures AddShift(x, c, nbits) == Low(x + Shl(x, c), nbits)
  {
    hide Low, Shl, Pow2;
    LowAdd(x, Shl(x, c), 32);
    LowLow(x + Shl(x, c), nbits, 32);
  }

  /** The low bits of x << c depend on fewer bits of x. */
  lemma {:induction false} LowShl(x: nat, y: nat, c: nat, k: nat)
    requires Low(x, k) == Low(y, k) && c >= 1
    ensures Low(Shl(x, c), k + 1) == Low(Shl(y, c), k + 1)
    decreases c
  {
    hide Low, Pow2;
    assert Shl(x, c) == 2 * Shl(x, c - 1) && Shl(y, c) == 2 * Shl(y, c - 1);
    LowDigit(Shl(x, c - 1), 0, k);
    LowDigit(Shl(y, c - 1), 0, k);
    if c > 1 {
      LowShl(x, y, c - 1, k);
      LowLow(Shl(x, c - 1), k, k + 1);
      LowLow(Shl(y, c - 1), k, k + 1);
    } else {
      assert Shl(x, 0) == x && Shl(y, 0) == y;
    }
  }

  /** If x + (x << c) and y + (y << c) agree on n bits, so do x and y: bit by bit. */
  lemma {:induction false} AddShiftLow(x: nat, y: nat, c: nat, n: nat, k: nat)
    requires c >= 1 && k <= n && Low(x + Shl(x, c), n) == Low(y + Shl(y, c), n)
    ensures Low(x, k) == Low(y, k)
    decreases k
  {
    hide Low, Shl;
    if k > 0 {
      AddShiftLow(x, y, c, n, k - 1);
      LowShl(x, y, c, k - 1);
      LowLow(x + Shl(x, c), k, n);
      LowLow(y + Shl(y, c), k, n);
      LowAdd(x, Shl(x, c), k);
      LowAdd(y, Shl(y, c), k);
      LowCancel(x, y, Low(Shl(x, c), k), k);
    }
  }

  lemma AddShiftInjective(x: nat, y: nat, c: nat, nbits: nat)
    requires c >= 1 && nbits <= 32 && x < Pow2(nbits) && y < Pow2(nbits)
    requires AddShift(x, c, nbits) == AddShift(y, c, nbits)
    ensures x == y
  {
    AddShiftPlain(x, c, nbits);
    AddShiftPlain(y, c, nbits);
    AddShiftLow(x, y, c, nbits, nbits);
    LowOfSmall(x, nbits);
    LowOfSmall(y, nbits);
  }

  lemma {:induction false} XorShiftInjective(x: nat, y: nat, c: nat)
    requires c >= 1 && XorShift(x, c) == XorShift(y, c)
    ensures x == y
    decreases x + y
  {
    ShrLess(x, c);
    ShrLess(y, c);
    if x > 0 || y > 0 {
      XorShr(x, Shr(x, c), c);
      XorShr(y, Shr(y, c), c);
      XorShiftInjective(Shr(x, c), Shr(y, c), c);
      XorCancel(x, y, Shr(x, c));
    }
  }

  lemma XorShiftBound(x: nat, c: nat, nbits: nat)
    requires x < Pow2(nbits)
    ensures XorShift(x, c) < Pow2(nbits)
  {
    ShrLess(x, c);
    XorBound(x, Shr(x, c), nbits);
  }

  /** Whatever 32-bit number goes in, a round's result has at most nbits bits. */
  lemma RoundBound(x: nat, nbits: nat)
    ensures Round(x, nbits) < Pow2(nbits)
  {
    var x1 := AddShift(x, 1 + nbits / 2, nbits);
    XorShiftBound(x1, 1 + nbits / 3, nbits);
    var x2 := AddShift(XorShift(x1, 1 + nbits / 3), 1 + nbits / 4, nbits);
    XorShiftBound(x2, 1 + nbits / 5, nbits);
  }

  lemma RoundInjective(x: nat, y: nat, nbits: nat)
    requires nbits <= 32 && x < Pow2(nbits) && y < Pow2(nbits) && Round(x, nbits) == Round(y, nbits)
    ensures x == y
  {
    hide AddShift, XorShift, Pow2;
    var const2, const3, const4, const5 := 1 + nbits / 2, 1 + nbits / 3, 1 + nbits / 4, 1 + nbits / 5;
    var x1, y1 := AddShift(x, const2, nbits), AddShift(y, const2, nbits);
    var x2, y2 := XorShift(x1, const3), XorShift(y1, const3);
    AddShiftBound(x, const2, nbits);
    AddShiftBound(y, const2, nbits);
    XorShiftBound(x1, const3, nbits);
    XorShiftBound(y1, const3, nbits);
    XorShiftInjective(AddShift(x2, const4, nbits), AddShift(y2, const4, nbits), const5);
    AddShiftInjective(x2, y2, const4, nbits);
    XorShiftInjective(x1, y1, const3);
    AddShiftInjective(x, y, const2, nbits);
  }

  lemma AddShiftBound(x: nat, c: nat, nbits: nat)
    ensures AddShift(x, c, nbits) < Pow2(nbits)
  {
    hide Pow2, Low;
  }

  /** permute maps any number at all into 0..2^nbits-1. */
  lemma PermuteBound(x: nat, nbits: nat)
    ensures PermuteSpec(x, nbits) < Pow2(nbits)
  {
    RoundBound(Rounds(x, nbits, 19), nbits);
  }

  lemma {:induction false} RoundsInjective(x: nat, y: nat, nbits: nat, n: nat)
    requires nbits <= 32 && x < Pow2(nbits) && y < Pow2(nbits) && Rounds(x, nbits, n) == Rounds(y, nbits, n)
    ensures x == y
    decreases n
  {
    if n > 0 {
      if n > 1 {
        RoundBound(Rounds(x, nbits, n - 2), nbits);
        RoundBound(Rounds(y, nbits, n - 2), nbits);
      }
      RoundInjective(Rounds(x, nbits, n - 1), Rounds(y, nbits, n - 1), nbits);
      RoundsInjective(x, y, nbits, n - 1);
    }
  }

  lemma PermuteInjective(x: nat, y: nat, nbits: nat)
    requires nbits <= 32 && x < Pow2(nbits) && y < Pow2(nbits)
    requires PermuteSpec(x, nbits) == PermuteSpec(y, nbits)
    ensures x == y
  {
    RoundsInjective(x, y, nbits, 20);
  }

  /** permute is onto 0..2^nbits-1: with PermuteInjective, a permutation of that range. */
  lemma PermuteOnto(y: nat, nbits: nat)
    requires nbits <= 32 && y < Pow2(nbits)
    ensures exists x: nat :: x < Pow2(nbits) && PermuteSpec(x, nbits) == y
  {
    hide PermuteSpec, Pow2;
    var all := seq(Pow2(nbits), i requires 0 <= i < Pow2(nbits) => PermuteSpec(i, nbits));
    forall i | 0 <= i < |all| ensures all[i] < |all| { PermuteBound(i, nbits); }
    forall i, j | 0 <= i < j < |all| ensures all[i] != all[j] {
      if all[i] == all[j] { PermuteInjective(i, j, nbits); }
    }
    DistinctIsOnto(all, y);
    var i :| 0 <= i < |all| && all[i] == y;
    assert PermuteSpec(i, nbits) == y;
  }

  lemma {:induction false} PermuteZero(nbits: nat, n: nat)
    ensures Rounds(0, nbits, n) == 0
  {
    hide AddShift, XorShift;
    if n > 0 {
      PermuteZero(nbits, n - 1);
      ZeroStays(1 + nbits / 2, nbits);
      ZeroStays(1 + nbits / 3, nbits);
      ZeroStays(1 + nbits / 4, nbits);
      ZeroStays(1 + nbits / 5, nbits);
    }
  }

  lemma ZeroStays(c: nat, nbits: nat)
    ensures AddShift(0, c, nbits) == 0 && XorShift(0, c) == 0
  {
    ShlOne(c);
    ShrLess(0, c);
  }

  /** permute fixes zero. */
  lemma PermuteSpecZero(nbits: nat)
    ensures PermuteSpec(0, nbits) == 0
  {
    PermuteZero(nbits, 20);
  }

  /** `log2u`: the ceiling of the base-2 logarithm. */
  method Log2u(val: nat) returns (i: nat)
    requires 0 < val
    ensures val <= Pow2(i) && (i > 0 ==> Pow2(i - 1) < val)
  {
    i := 0;
    while Pow2(i) < val
      invariant i > 0 ==> Pow2(i - 1) < val
      decreases val - Pow2(i)
    {
      i := i + 1;
    }
  }

  /** On a power of two the ceiling is exact. */
  lemma Log2uExact(k: nat, i: nat)
    requires Pow2(k) <= Pow2(i) && (i > 0 ==> Pow2(i - 1) < Pow2(k))
    ensures i == k
  {
    if i < k { Pow2Mono(i, k); }
    if i > k { Pow2Mono(k, i - 1); }
  }

  function ScrambleSpec(nbits: nat): (s: seq<nat>)
    ensures |s| == 256
  {
    seq(256, i requires 0 <= i < 256 => PermuteSpec(i, nbits))
  }

  /** `scrambleinit` for a power of two. */
  method ScrambleInit(smax: nat, ghost nbits: nat) returns (scramble: seq<nat>)
    requires smax == Pow2(nbits)
    ensures scramble == ScrambleSpec(nbits)
  {
    hide PermuteSpec, Pow2;
    var log := Log2u(smax);
    Log2uExact(nbits, log);
    scramble := [];
    for i := 0 to 256
      invariant |scramble| == i
      invariant forall j :: 0 <= j < i ==> scramble[j] == PermuteSpec(j, nbits)
    {
      var p := Permute(i, log);
      scramble := scramble + [p];
    }
  }

  /** Scramble values are below smax, start at zero, and are all distinct once smax >= 256. */
  lemma ScrambleGood(nbits: nat)
    requires nbits <= 32
    ensures forall i :: 0 <= i < 256 ==> ScrambleSpec(nbits)[i] < Pow2(nbits)
    ensures ScrambleSpec(nbits)[0] == 0
    ensures nbits >= 8 ==> forall i, j :: 0 <= i < j < 256 ==> ScrambleSpec(nbits)[i] != ScrambleSpec(nbits)[j]
  {
    hide PermuteSpec, Pow2;
    forall i | 0 <= i < 256 ensures ScrambleSpec(nbits)[i] < Pow2(nbits) { PermuteBound(i, nbits); }
    PermuteSpecZero(nbits);
    if nbits >= 8 {
      Pow2Mono(8, nbits);
      assert 256 <= Pow2(8) by { Pow2Of8(); }
      forall i, j | 0 <= i < j < 256 ensures ScrambleSpec(nbits)[i] != ScrambleSpec(nbits)[j] {
        if ScrambleSpec(nbits)[i] == ScrambleSpec(nbits)[j] { PermuteInjective(i, j, nbits); }
      }
    }
  }
}
