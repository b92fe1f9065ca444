/** Fixed-width words as natural numbers: shifts, masks and exclusive or, defined bit by bit so
    that every fact about them follows by induction from linear arithmetic. */
module Bits {

  function Pow2(k: nat): (p: nat)
    ensures p > 0
  {
    if k == 0 then 1 else 2 * Pow2(k - 1)
  }

  /** x << k, without truncation. */
  function Shl(x: nat, k: nat): nat { if k == 0 then x else 2 * Shl(x, k - 1) }

  /** x >> k. */
  function Shr(x: nat, k: nat): nat { if k == 0 then x else Shr(x / 2, k - 1) }

  /** x & (2^k - 1). */
  function Low(x: nat, k: nat): (r: nat)
    ensures r < Pow2(k) && r <= x
  {
    if k == 0 then 0 else x % 2 + 2 * Low(x / 2, k - 1)
  }

  /** x ^ y. */
  function Xor(x: nat, y: nat): nat {
    if x == 0 && y == 0 then 0 else (if x % 2 == y % 2 then 0 else 1) + 2 * Xor(x / 2, y / 2)
  }

  /** x & y. */
  function And(x: nat, y: nat): nat {
    if x == 0 || y == 0 then 0 else (if x % 2 == 1 && y % 2 == 1 then 1 else 0) + 2 * And(x / 2, y / 2)
  }

  /** x | y. */
  function Or(x: nat, y: nat): nat {
    if x == 0 && y == 0 then 0 else (if x % 2 == 0 && y % 2 == 0 then 0 else 1) + 2 * Or(x / 2, y / 2)
  }

  /** The number of bits needed to write x: 32 - CountLeadingZeros_32(x) for a 32-bit x. */
  function BitLen(x: nat): nat { if x == 0 then 0 else 1 + BitLen(x / 2) }

  /** The base-2 logarithm, rounded down. */
  function Log2(n: nat): nat
    requires n > 0
  {
    BitLen(n) - 1
  }

  predicate IsPow2(n: nat) { n > 0 && n == Pow2(Log2(n)) }

  predicate BitSet(x: nat, k: nat) { Shr(x, k) % 2 == 1 }

  // ---------------------------------------------------------------- shifts and masks

  lemma {:induction false} ShlAdd(x: nat, y: nat, k: nat)
    ensures Shl(x + y, k) == Shl(x, k) + Shl(y, k)
  {
    if k > 0 { ShlAdd(x, y, k - 1); }
  }

  lemma {:induction false} ShlOne(k: nat)
    ensures Shl(1, k) == Pow2(k) && Shl(0, k) == 0
  {
    if k > 0 { ShlOne(k - 1); }
  }

  lemma {:induction false} ShlShl(x: nat, j: nat, k: nat)
    ensures Shl(Shl(x, j), k) == Shl(x, j + k)
  {
    if k > 0 { ShlShl(x, j, k - 1); }
  }

  lemma {:induction false} ShlMono(x: nat, y: nat, k: nat)
    requires x <= y
    ensures Shl(x, k) <= Shl(y, k)
    ensures x < y ==> Shl(x, k) + Pow2(k) <= Shl(y, k)
  {
    if k > 0 { ShlMono(x, y, k - 1); }
  }

  lemma {:induction false} ShlPow2(j: nat, k: nat)
    ensures Shl(Pow2(j), k) == Pow2(j + k)
  {
    if k > 0 { ShlPow2(j, k - 1); }
  }

  lemma {:induction false} Pow2Mono(j: nat, k: nat)
    requires j <= k
    ensures Pow2(j) <= Pow2(k)
    ensures j < k ==> 2 * Pow2(j) <= Pow2(k)
  {
    if j < k { Pow2Mono(j, k - 1); }
  }

  /** A word is its high part and its low part. */
  lemma {:induction false} Split(x: nat, k: nat)
    ensures x == Shl(Shr(x, k), k) + Low(x, k)
  {
    if k > 0 { Split(x / 2, k - 1); }
  }

  /** ... and the two parts are unique. */
  lemma {:induction false} Join(q: nat, r: nat, k: nat)
    requires r < Pow2(k)
    ensures Shr(Shl(q, k) + r, k) == q && Low(Shl(q, k) + r, k) == r
  {
    if k > 0 {
      assert (Shl(q, k) + r) / 2 == Shl(q, k - 1) + r / 2;
      Join(q, r / 2, k - 1);
    }
  }

  lemma LowOfSmall(x: nat, k: nat)
    requires x < Pow2(k)
    ensures Low(x, k) == x && Shr(x, k) == 0
  {
    ShlOne(k);
    Join(0, x, k);
  }

  lemma {:induction false} ShrBound(x: nat, j: nat, k: nat)
    requires x < Pow2(j + k)
    ensures Shr(x, k) < Pow2(j)
  {
    if k > 0 { ShrBound(x / 2, j, k - 1); }
  }

  lemma {:induction false} ShrShr(x: nat, j: nat, k: nat)
    ensures Shr(Shr(x, j), k) == Shr(x, j + k)
  {
    if j > 0 { ShrShr(x / 2, j - 1, k); }
  }

  lemma {:induction false} ShrLess(x: nat, k: nat)
    ensures Shr(x, k) <= x
    ensures x > 0 && k > 0 ==> Shr(x, k) < x
  {
    if k > 0 { ShrLess(x / 2, k - 1); }
  }

  lemma LowNone(x: nat)
    ensures Low(x, 0) == 0
  {
  }

  /** The last digit of a masked number. */
  lemma LowDigit(a: nat, p: nat, k: nat)
    requires p < 2
    ensures Low(2 * a + p, k + 1) == p + 2 * Low(a, k)
  {
    assert (2 * a + p) / 2 == a && (2 * a + p) % 2 == p;
  }

  lemma {:induction false} LowLow(x: nat, j: nat, k: nat)
    requires j <= k
    ensures Low(Low(x, k), j) == Low(x, j)
    decreases j
  {
    hide Low, Pow2;
    if j == 0 {
      LowNone(x);
      LowNone(Low(x, k));
    } else {
      var a, p := x / 2, x % 2;
      assert x == 2 * a + p;
      LowDigit(a, p, k - 1);
      LowDigit(a, p, j - 1);
      LowDigit(Low(a, k - 1), p, j - 1);
      LowLow(a, j - 1, k - 1);
    }
  }

  /** Masking commutes with addition. */
  lemma {:induction false} LowAdd(x: nat, y: nat, k: nat)
    ensures Low(x + Low(y, k), k) == Low(x + y, k)
    decreases k
  {
    hide Low, Pow2, Carry;
    if k == 0 {
      LowNone(x + Low(y, 0));
      LowNone(x + y);
    } else {
      var a, p, b, q := x / 2, x % 2, y / 2, y % 2;
      assert x == 2 * a + p && y == 2 * b + q;
      LowAdd(a + Carry(p, q), b, k - 1);
      LowAddDigit(a, p, b, q, k - 1);
    }
  }

  function Carry(p: nat, q: nat): nat { if p + q >= 2 then 1 else 0 }

  function Digit(p: nat, q: nat): (r: nat)
    requires p < 2 && q < 2
    ensures r < 2 && p + q == 2 * Carry(p, q) + r
  {
    if p == q then 0 else 1
  }

  lemma LowAddDigit(a: nat, p: nat, b: nat, q: nat, k: nat)
    requires p < 2 && q < 2
    requires Low(a + Carry(p, q) + Low(b, k), k) == Low(a + Carry(p, q) + b, k)
    ensures Low(2 * a + p + Low(2 * b + q, k + 1), k + 1) == Low(2 * a + p + (2 * b + q), k + 1)
  {
    hide Low, Pow2, Carry;
    var c, r := Carry(p, q), Digit(p, q);
    LowDigit(b, q, k);
    LowDigit(a + c + b, r, k);
    LowDigit(a + c + Low(b, k), r, k);
    assert 2 * a + p + (2 * b + q) == 2 * (a + c + b) + r;
    assert 2 * a + p + (q + 2 * Low(b, k)) == 2 * (a + c + Low(b, k)) + r;
  }

  /** Addition modulo 2^k can be cancelled. */
  lemma {:induction false} LowCancel(x: nat, y: nat, z: nat, k: nat)
    requires Low(x + z, k) == Low(y + z, k)
    ensures Low(x, k) == Low(y, k)
    decreases k
  {
    hide Low, Pow2, Carry;
    if k == 0 {
      LowNone(x);
      LowNone(y);
    } else {
      var a, p, b, q, d, e := x / 2, x % 2, y / 2, y % 2, z / 2, z % 2;
      assert x == 2 * a + p && y == 2 * b + q && z == 2 * d + e;
      LowCancelDigit(a, p, b, q, d, e, k - 1);
      LowCancel(a, b, d + Carry(p, e), k - 1);
      LowDigit(a, p, k - 1);
      LowDigit(b, q, k - 1);
    }
  }

  lemma LowCancelDigit(a: nat, p: nat, b: nat, q: nat, d: nat, e: nat, k: nat)
    requires p < 2 && q < 2 && e < 2
    requires Low(2 * a + p + (2 * d + e), k + 1) == Low(2 * b + q + (2 * d + e), k + 1)
    ensures p == q && Low(a + (d + Carry(p, e)), k) == Low(b + (d + Carry(p, e)), k)
  {
    hide Low, Pow2;
    LowDigit(a + (d + Carry(p, e)), Digit(p, e), k);
    LowDigit(b + (d + Carry(q, e)), Digit(q, e), k);
    assert 2 * a + p + (2 * d + e) == 2 * (a + (d + Carry(p, e))) + Digit(p, e);
    assert 2 * b + q + (2 * d + e) == 2 * (b + (d + Carry(q, e))) + Digit(q, e);
  }

  /** A clear bit can be set without touching the bits above the mask, and is set then. */
  lemma {:induction false} SetClearBit(x: nat, bit: nat, k: nat)
    requires x < Pow2(k) && bit < k && !BitSet(x, bit)
    ensures x + Pow2(bit) < Pow2(k) && BitSet(x + Pow2(bit), bit)
    decreases bit
  {
    if bit > 0 {
      assert (x + Pow2(bit)) / 2 == x / 2 + Pow2(bit - 1);
      SetClearBit(x / 2, bit - 1, k - 1);
    }
  }

  /** Adding a clear bit sets that bit and no other. */
  lemma {:induction false} AddClearBit(x: nat, bit: nat, b: nat)
    requires !BitSet(x, bit)
    ensures BitSet(x + Pow2(bit), b) <==> BitSet(x, b) || b == bit
    decreases bit
  {
    if bit == 0 {
      assert x % 2 == 0 && (x + 1) / 2 == x / 2;
    } else {
      var y := x + Pow2(bit);
      assert y / 2 == x / 2 + Pow2(bit - 1) && y % 2 == x % 2;
      assert !BitSet(x / 2, bit - 1);
      if b > 0 {
        AddClearBit(x / 2, bit - 1, b - 1);
      }
    }
  }

  /** A bit below the mask is a bit of the masked number. */
  lemma {:induction false} BitOfLow(x: nat, bit: nat, k: nat)
    requires bit < k
    ensures BitSet(Low(x, k), bit) <==> BitSet(x, bit)
    decreases bit
  {
    assert Low(x, k) % 2 == x % 2 && Low(x, k) / 2 == Low(x / 2, k - 1);
    if bit > 0 {
      BitOfLow(x / 2, bit - 1, k - 1);
    }
  }

  // ---------------------------------------------------------------- exclusive or

  /** Exclusive or undoes itself. */
  lemma {:induction false} XorUndo(x: nat, y: nat)
    ensures Xor(Xor(x, y), y) == x
  {
    if x > 0 || y > 0 { XorUndo(x / 2, y / 2); }
  }

  lemma XorCancel(x: nat, y: nat, z: nat)
    requires Xor(x, z) == Xor(y, z)
    ensures x == y
  {
    XorUndo(x, z);
    XorUndo(y, z);
  }

  lemma {:induction false} XorBound(x: nat, y: nat, k: nat)
    requires x < Pow2(k) && y < Pow2(k)
    ensures Xor(x, y) < Pow2(k)
  {
    if k > 0 && (x > 0 || y > 0) { XorBound(x / 2, y / 2, k - 1); }
  }

  lemma {:induction false} XorShr(x: nat, y: nat, k: nat)
    ensures Shr(Xor(x, y), k) == Xor(Shr(x, k), Shr(y, k))
  {
    if k > 0 {
      assert Xor(x, y) / 2 == Xor(x / 2, y / 2);
      XorShr(x / 2, y / 2, k - 1);
    }
  }

  // ---------------------------------------------------------------- inclusive or

  lemma {:induction false} OrShr(x: nat, y: nat, k: nat)
    ensures Shr(Or(x, y), k) == Or(Shr(x, k), Shr(y, k))
  {
    if k > 0 {
      assert Or(x, y) / 2 == Or(x / 2, y / 2);
      OrShr(x / 2, y / 2, k - 1);
    }
  }

  lemma {:induction false} OrBound(x: nat, y: nat, k: nat)
    requires x < Pow2(k) && y < Pow2(k)
    ensures x <= Or(x, y) < Pow2(k) && y <= Or(x, y)
  {
    if k > 0 && (x > 0 || y > 0) { OrBound(x / 2, y / 2, k - 1); }
  }

  // ---------------------------------------------------------------- bit length and masks

  lemma {:induction false} BitLenBounds(x: nat)
    requires x > 0
    ensures BitLen(x) > 0 && Pow2(BitLen(x) - 1) <= x < Pow2(BitLen(x))
  {
    if x > 1 { BitLenBounds(x / 2); }
  }

  lemma {:induction false} BitLenPow2(k: nat)
    ensures BitLen(Pow2(k)) == k + 1
  {
    if k > 0 {
      assert Pow2(k) / 2 == Pow2(k - 1);
      BitLenPow2(k - 1);
    }
  }

  lemma Pow2Of8()
    ensures Pow2(8) == 256
  {
  }

  lemma Pow2Of30()
    ensures Pow2(30) == 0x4000_0000 && Pow2(31) == 0x8000_0000 && Pow2(32) == 0x1_0000_0000
  {
    assert Pow2(8) == 0x100;
    assert Pow2(16) == 0x1_0000;
    assert Pow2(24) == 0x100_0000;
  }

  lemma Pow2Of64()
    ensures Pow2(64) == 0x1_0000_0000_0000_0000
  {
    assert Pow2(8) == 0x100;
    assert Pow2(16) == 0x1_0000;
    assert Pow2(24) == 0x100_0000;
    assert Pow2(32) == 0x1_0000_0000;
    assert Pow2(40) == 0x100_0000_0000;
    assert Pow2(48) == 0x1_0000_0000_0000;
    assert Pow2(56) == 0x100_0000_0000_0000;
  }

  lemma Pow2Next(k: nat)
    ensures Pow2(k + 1) == 2 * Pow2(k)
  {
  }

  lemma {:induction false} BitLenOnes(k: nat)
    ensures BitLen(Pow2(k) - 1) == k
  {
    if k > 0 {
      assert (Pow2(k) - 1) / 2 == Pow2(k - 1) - 1;
      BitLenOnes(k - 1);
    }
  }

  lemma Pow2IsPow2(k: nat)
    ensures IsPow2(Pow2(k)) && Log2(Pow2(k)) == k
  {
    BitLenPow2(k);
  }

  lemma AndDigit(a: nat, p: nat, b: nat, q: nat)
    requires p < 2 && q < 2
    ensures And(2 * a + p, 2 * b + q) == (if p == 1 && q == 1 then 1 else 0) + 2 * And(a, b)
  {
    assert (2 * a + p) / 2 == a && (2 * a + p) % 2 == p && (2 * b + q) / 2 == b && (2 * b + q) % 2 == q;
  }

  /** A mask of k ones keeps the low k bits. */
  lemma {:induction false} AndMask(x: nat, k: nat)
    ensures And(x, Pow2(k) - 1) == Low(x, k)
    decreases k
  {
    hide And, Low, Pow2;
    if k == 0 {
      AndNone(x);
      LowNone(x);
    } else {
      var a, p := x / 2, x % 2;
      assert x == 2 * a + p;
      Pow2Next(k - 1);
      AndDigit(a, p, Pow2(k - 1) - 1, 1);
      LowDigit(a, p, k - 1);
      AndMask(a, k - 1);
    }
  }

  lemma AndNone(x: nat)
    ensures And(x, Pow2(0) - 1) == 0
  {
  }
}
