/** The 32-bit `NextPowerOf2`, by smearing the top bit to the right. */
module NextPowerOf2 {
  import opened Bits

  const U32_BITS: nat := 32

  function Smear(a: nat, w: nat): nat { Or(a, Shr(a, w)) }

  function SmearAll(a: nat): nat { Smear(Smear(Smear(Smear(Smear(a, 1), 2), 4), 8), 16) }

  /** The source's function: zero on overflow. */
  function NextPow2(a: nat): nat { Low(SmearAll(a) + 1, U32_BITS) }

  /** Of the m bits of `a` the top w are ones (all of them, when w >= m). */
  ghost predicate TopOnes(a: nat, m: nat, w: nat) {
    var d := if w >= m then 0 else m - w;
    Shr(a, d) == Pow2(m - d) - 1 && a < Pow2(m)
  }

  /** j ones below n - j ones make n ones. */
  lemma {:induction false} OrOnes(x: nat, j: nat, n: nat)
    requires j <= n && x < Pow2(n) && Shr(x, j) == Pow2(n - j) - 1
    ensures Or(x, Pow2(j) - 1) == Pow2(n) - 1
    decreases j
  {
    if j == 0 {
      OrZero(x);
    } else {
      OrOnes(x / 2, j - 1, n - 1);
    }
  }

  lemma {:induction false} OrZero(x: nat)
    ensures Or(x, 0) == x
  {
    if x > 0 { OrZero(x / 2); }
  }

  /** Shifting a block of ones leaves a shorter block of ones. */
  lemma {:induction false} ShrOnes(n: nat, k: nat)
    ensures Shr(Pow2(n) - 1, k) == if k <= n then Pow2(n - k) - 1 else 0
    decreases k
  {
    if k > 0 {
      if n == 0 {
        ShrLess(0, k);
      } else {
        assert (Pow2(n) - 1) / 2 == Pow2(n - 1) - 1;
        ShrOnes(n - 1, k - 1);
      }
    }
  }

  /** One smearing step doubles the block of ones at the top. */
  lemma SmearDoubles(a: nat, m: nat, w: nat)
    requires 0 < w && TopOnes(a, m, w)
    ensures TopOnes(Smear(a, w), m, 2 * w)
  {
    hide Shr, Or, Pow2;
    ShrBound(a, m, 0);
    assert Shr(a, 0) == a by { ShrZero(a); }
    ShrLess(a, w);
    OrBound(a, Shr(a, w), m);
    var d' := if 2 * w >= m then 0 else m - 2 * w;
    var x, n := Shr(a, d'), m - d';
    assert x < Pow2(n) by { ShrBound(a, n, d'); }
    OrShr(a, Shr(a, w), d');
    ShrShr(a, w, d');
    ShrShr(a, d', w);
    assert Shr(Smear(a, w), d') == Or(x, Shr(x, w));
    if w >= m {
      assert x == Pow2(m) - 1;
      ShrOnes(m, w);
      OrZero(x);
    } else {
      // The top w bits of x are ones; shifted right they fill the remaining n - w <= w bits.
      var j := n - w;
      ShrShr(a, d', j);
      assert d' + j == m - w;
      assert Shr(x, j) == Pow2(w) - 1;
      ShrShr(x, j, w - j);
      ShrOnes(w, w - j);
      assert Shr(x, w) == Pow2(j) - 1;
      OrOnes(x, j, n);
    }
  }

  lemma ShrZero(a: nat)
    ensures Shr(a, 0) == a
  {
  }

  lemma SmearAllFills(a: nat)
    requires 0 < a && BitLen(a) <= 32
    ensures SmearAll(a) == Pow2(BitLen(a)) - 1
  {
    hide Smear;
    var m := BitLen(a);
    BitLenBounds(a);
    assert TopOnes(a, m, 1) by { TopBit(a, m); }
    SmearDoubles(a, m, 1);
    SmearDoubles(Smear(a, 1), m, 2);
    SmearDoubles(Smear(Smear(a, 1), 2), m, 4);
    SmearDoubles(Smear(Smear(Smear(a, 1), 2), 4), m, 8);
    SmearDoubles(Smear(Smear(Smear(Smear(a, 1), 2), 4), 8), m, 16);
    ShrZero(SmearAll(a));
  }

  lemma TopBit(a: nat, m: nat)
    requires m > 0 && Pow2(m - 1) <= a < Pow2(m)
    ensures Shr(a, m - 1) == 1
  {
    ShlOne(m - 1);
    Join(1, a - Pow2(m - 1), m - 1);
  }

  lemma LowOfPow2(k: nat)
    ensures Low(Pow2(k), k) == 0
  {
    ShlOne(k);
    Join(1, 0, k);
  }

  /** What happens when `ones`, m ones in a row, is incremented in n bits. */
  lemma Increment(m: nat, n: nat)
    requires m <= n
    ensures Low(Pow2(m), n) == if m < n then Pow2(m) else 0
  {
    if m < n {
      Pow2Mono(m, n);
      LowOfSmall(Pow2(m), n);
    } else {
      LowOfPow2(n);
    }
  }

  lemma {:induction false} BitLenAtMost(a: nat, n: nat)
    requires a < Pow2(n)
    ensures BitLen(a) <= n
  {
    if a > 0 { BitLenAtMost(a / 2, n - 1); }
  }

  lemma {:induction false} BitLenAtLeast(a: nat, n: nat)
    requires a >= Pow2(n)
    ensures BitLen(a) > n
  {
    if n > 0 { BitLenAtLeast(a / 2, n - 1); }
  }

  lemma SmearAllZero()
    ensures SmearAll(0) == 0
  {
  }

  lemma SmearAllPlusOne(a: nat)
    requires BitLen(a) <= 32
    ensures SmearAll(a) + 1 == Pow2(BitLen(a))
  {
    if a == 0 { SmearAllZero(); } else { SmearAllFills(a); }
  }

  /** NextPow2(a) is the least power of two above `a`, or zero when that does not fit 32 bits. */
  lemma NextPow2Least(a: nat)
    requires a < Pow2(U32_BITS)
    ensures a < Pow2(U32_BITS - 1) ==>
              && NextPow2(a) == Pow2(BitLen(a))
              && IsPow2(NextPow2(a)) && a < NextPow2(a) && (a > 0 ==> NextPow2(a) <= 2 * a)
    ensures a >= Pow2(U32_BITS - 1) ==> NextPow2(a) == 0
  {
    hide SmearAll, Low, Pow2, BitLen;
    BitLenAtMost(a, U32_BITS);
    SmearAllPlusOne(a);
    Increment(BitLen(a), U32_BITS);
    if a < Pow2(U32_BITS - 1) {
      BitLenAtMost(a, U32_BITS - 1);
      Pow2IsPow2(BitLen(a));
      BitLenSpan(a);
    } else {
      BitLenAtLeast(a, U32_BITS - 1);
    }
  }

  lemma BitLenSpan(a: nat)
    ensures a < Pow2(BitLen(a)) && (a > 0 ==> Pow2(BitLen(a)) <= 2 * a)
  {
    if a > 0 { BitLenBounds(a); }
  }
}
