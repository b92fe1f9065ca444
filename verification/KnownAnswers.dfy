/** Known answers: one value each of mix64 and lookup8 and a few of permute, worked out step by step.
    They fix what the general laws leave open: shift amounts, byte order, the number of rounds, and
    which word is returned. */
module KnownAnswers {
  import opened Bits
  import opened Hash64
  import Scramble
  import opened PerfectHash
  import opened DenseMaps

  // ---------------------------------------------------------------- evaluation of bit operations

  // Bit-vector operations under names, so that they can be hidden.
  function Value(x: bv8): nat { x as nat }

  function Half(x: bv8): bv8 { x >> 1 }

  function ByteXor(x: bv8, y: bv8): bv8 { x ^ y }

  function WordXor(a: bv64, b: bv64): bv64 { a ^ b }

  // The bytes of a word, from the lowest.
  function Byte0(b: bv64): bv8 { (b & 0xff) as bv8 }

  function Byte1(b: bv64): bv8 { ((b >> 8) & 0xff) as bv8 }

  function Byte2(b: bv64): bv8 { ((b >> 16) & 0xff) as bv8 }

  function Byte3(b: bv64): bv8 { ((b >> 24) & 0xff) as bv8 }

  function Byte4(b: bv64): bv8 { ((b >> 32) & 0xff) as bv8 }

  function Byte5(b: bv64): bv8 { ((b >> 40) & 0xff) as bv8 }

  function Byte6(b: bv64): bv8 { ((b >> 48) & 0xff) as bv8 }

  function Byte7(b: bv64): bv8 { ((b >> 56) & 0xff) as bv8 }

  /** The number that a word stands for. */
  function Number(b: bv64): nat {
    Value(Byte0(b)) + 0x100 * Value(Byte1(b)) + 0x1_0000 * Value(Byte2(b)) + 0x100_0000 * Value(Byte3(b))
    + 0x1_0000_0000 * Value(Byte4(b)) + 0x100_0000_0000 * Value(Byte5(b))
    + 0x1_0000_0000_0000 * Value(Byte6(b)) + 0x100_0000_0000_0000 * Value(Byte7(b))
  }

  lemma HalfValue(x: bv8)
    ensures Value(x) / 2 == Value(Half(x)) && Value(x) < 256
  {
  }

  lemma ByteBits(x: bv8, y: bv8)
    ensures Half(ByteXor(x, y)) == ByteXor(Half(x), Half(y))
  {
  }

  /** The last bit of a byte, as a number and as a bit-vector. */
  lemma LastBit(x: bv8)
    ensures Value(x) % 2 == if x & 1 == 1 then 1 else 0
  {
  }

  lemma LastBitXor(x: bv8, y: bv8)
    ensures Value(ByteXor(x, y)) % 2 == if Value(x) % 2 == Value(y) % 2 then 0 else 1
  {
    hide Value;
    LastBit(x);
    LastBit(y);
    LastBit(ByteXor(x, y));
  }

  lemma ZeroValue(x: bv8)
    ensures Value(x) == 0 ==> x == 0
    ensures Value(0) == 0 && ByteXor(0, 0) == 0
  {
  }

  lemma XorNone()
    ensures Xor(0, 0) == 0
  {
  }

  lemma XorStep(x: nat, y: nat)
    ensures Xor(x, y) == (if x % 2 == y % 2 then 0 else 1) + 2 * Xor(x / 2, y / 2)
  {
  }

  /** Exclusive or on bytes is that of the bit-vectors. */
  lemma {:induction false} XorOfBytes(x: bv8, y: bv8)
    ensures Xor(Value(x), Value(y)) == Value(ByteXor(x, y))
    decreases Value(x) + Value(y)
  {
    hide Xor, Value, Half, ByteXor;
    if Value(x) == 0 && Value(y) == 0 {
      XorNone();
      ZeroValue(x);
      ZeroValue(y);
    } else {
      HalfValue(x);
      HalfValue(y);
      HalfValue(ByteXor(x, y));
      ByteBits(x, y);
      LastBitXor(x, y);
      XorStep(Value(x), Value(y));
      XorOfBytes(Half(x), Half(y));
    }
  }

  /** Exclusive or works on low bits and high bits apart. */
  lemma {:induction false} XorChunk(a: nat, b: nat, p: nat, q: nat, k: nat)
    requires p < Pow2(k) && q < Pow2(k)
    ensures Xor(Shl(a, k) + p, Shl(b, k) + q) == Shl(Xor(a, b), k) + Xor(p, q)
    decreases k
  {
    if k == 0 {
      XorNone();
    } else {
      XorStep(Shl(a, k) + p, Shl(b, k) + q);
      XorStep(p, q);
      assert (Shl(a, k) + p) / 2 == Shl(a, k - 1) + p / 2 && (Shl(a, k) + p) % 2 == p % 2;
      assert (Shl(b, k) + q) / 2 == Shl(b, k - 1) + q / 2 && (Shl(b, k) + q) % 2 == q % 2;
      XorChunk(a, b, p / 2, q / 2, k - 1);
    }
  }

  /** A byte below a number. */
  function Join8(low: nat, high: nat): nat { low + 256 * high }

  /** The lowest byte, by itself. */
  lemma XorLowest(p: bv8, q: bv8, a: nat, b: nat)
    ensures Xor(Join8(Value(p), a), Join8(Value(q), b)) == Join8(Value(ByteXor(p, q)), Xor(a, b))
  {
    hide Xor, Shl, Pow2, Value, ByteXor;
    Pow2Of8();
    HalfValue(p);
    HalfValue(q);
    XorChunk(a, b, Value(p), Value(q), 8);
    Multiple256(Shl(a, 8), a);
    Multiple256(Shl(b, 8), b);
    Multiple256(Shl(Xor(a, b), 8), Xor(a, b));
    XorOfBytes(p, q);
  }

  lemma Byte0Xor(a: bv64, b: bv64)
    ensures Byte0(WordXor(a, b)) == ByteXor(Byte0(a), Byte0(b))
  {
  }

  lemma Byte1Xor(a: bv64, b: bv64)
    ensures Byte1(WordXor(a, b)) == ByteXor(Byte1(a), Byte1(b))
  {
  }

  lemma Byte2Xor(a: bv64, b: bv64)
    ensures Byte2(WordXor(a, b)) == ByteXor(Byte2(a), Byte2(b))
  {
  }

  lemma Byte3Xor(a: bv64, b: bv64)
    ensures Byte3(WordXor(a, b)) == ByteXor(Byte3(a), Byte3(b))
  {
  }

  lemma Byte4Xor(a: bv64, b: bv64)
    ensures Byte4(WordXor(a, b)) == ByteXor(Byte4(a), Byte4(b))
  {
  }

  lemma Byte5Xor(a: bv64, b: bv64)
    ensures Byte5(WordXor(a, b)) == ByteXor(Byte5(a), Byte5(b))
  {
  }

  lemma Byte6Xor(a: bv64, b: bv64)
    ensures Byte6(WordXor(a, b)) == ByteXor(Byte6(a), Byte6(b))
  {
  }

  lemma Byte7Xor(a: bv64, b: bv64)
    ensures Byte7(WordXor(a, b)) == ByteXor(Byte7(a), Byte7(b))
  {
  }

  /** A number of eight bytes, from the top. */
  function Eight(b0: nat, b1: nat, b2: nat, b3: nat, b4: nat, b5: nat, b6: nat, b7: nat): nat {
    Join8(b0, Join8(b1, Join8(b2, Join8(b3, Join8(b4, Join8(b5, Join8(b6, b7)))))))
  }

  lemma EightXor(a0: bv8, a1: bv8, a2: bv8, a3: bv8, a4: bv8, a5: bv8, a6: bv8, a7: bv8,
                 b0: bv8, b1: bv8, b2: bv8, b3: bv8, b4: bv8, b5: bv8, b6: bv8, b7: bv8)
    ensures Xor(Eight(Value(a0), Value(a1), Value(a2), Value(a3), Value(a4), Value(a5), Value(a6), Value(a7)),
                Eight(Value(b0), Value(b1), Value(b2), Value(b3), Value(b4), Value(b5), Value(b6), Value(b7)))
            == Eight(Value(ByteXor(a0, b0)), Value(ByteXor(a1, b1)), Value(ByteXor(a2, b2)), Value(ByteXor(a3, b3)),
                     Value(ByteXor(a4, b4)), Value(ByteXor(a5, b5)), Value(ByteXor(a6, b6)), Value(ByteXor(a7, b7)))
  {
    hide Xor, Value, ByteXor, Join8;
    XorOfBytes(a7, b7);
    XorLowest(a6, b6, Value(a7), Value(b7));
    var x5, y5 := Join8(Value(a6), Value(a7)), Join8(Value(b6), Value(b7));
    XorLowest(a5, b5, x5, y5);
    var x4, y4 := Join8(Value(a5), x5), Join8(Value(b5), y5);
    XorLowest(a4, b4, x4, y4);
    var x3, y3 := Join8(Value(a4), x4), Join8(Value(b4), y4);
    XorLowest(a3, b3, x3, y3);
    var x2, y2 := Join8(Value(a3), x3), Join8(Value(b3), y3);
    XorLowest(a2, b2, x2, y2);
    var x1, y1 := Join8(Value(a2), x2), Join8(Value(b2), y2);
    XorLowest(a1, b1, x1, y1);
    XorLowest(a0, b0, Join8(Value(a1), x1), Join8(Value(b1), y1));
  }

  lemma NumberIsEight(b: bv64)
    ensures Number(b) == Eight(Value(Byte0(b)), Value(Byte1(b)), Value(Byte2(b)), Value(Byte3(b)),
                               Value(Byte4(b)), Value(Byte5(b)), Value(Byte6(b)), Value(Byte7(b)))
  {
    hide Value, Byte0, Byte1, Byte2, Byte3, Byte4, Byte5, Byte6, Byte7;
  }

  /** Exclusive or on 64-bit numbers is that of the bit-vectors. */
  lemma XorOfWords(a: bv64, b: bv64)
    ensures Xor(Number(a), Number(b)) == Number(WordXor(a, b))
  {
    hide Xor, Value, ByteXor, WordXor, Number, Eight, Byte0, Byte1, Byte2, Byte3, Byte4, Byte5, Byte6, Byte7;
    NumberIsEight(a);
    NumberIsEight(b);
    NumberIsEight(WordXor(a, b));
    Byte0Xor(a, b);
    Byte1Xor(a, b);
    Byte2Xor(a, b);
    Byte3Xor(a, b);
    Byte4Xor(a, b);
    Byte5Xor(a, b);
    Byte6Xor(a, b);
    Byte7Xor(a, b);
    EightXor(Byte0(a), Byte1(a), Byte2(a), Byte3(a), Byte4(a), Byte5(a), Byte6(a), Byte7(a),
             Byte0(b), Byte1(b), Byte2(b), Byte3(b), Byte4(b), Byte5(b), Byte6(b), Byte7(b));
  }

  lemma XorIs(x: nat, y: nat, z: nat, a: bv64, b: bv64, c: bv64)
    requires Number(a) == x && Number(b) == y && Number(c) == z && WordXor(a, b) == c
    ensures Xor(x, y) == z
  {
    hide Number, Xor, WordXor;
    XorOfWords(a, b);
  }

  /** The powers of two by which mix64 shifts. */
  function Power(s: nat): nat {
    match s
    case 5 => 0x20
    case 8 => 0x100
    case 9 => 0x200
    case 11 => 0x800
    case 12 => 0x1000
    case 18 => 0x4_0000
    case 22 => 0x40_0000
    case 23 => 0x80_0000
    case 35 => 0x8_0000_0000
    case 38 => 0x40_0000_0000
    case 43 => 0x800_0000_0000
    case 49 => 0x2_0000_0000_0000
    case _ => 1
  }

  predicate ShiftOfMix(s: nat) { s in {5, 8, 9, 11, 12, 18, 22, 23, 35, 38, 43, 49} }

  lemma {:induction false} Pow2Sum(j: nat, k: nat)
    ensures Pow2(j + k) == Pow2(j) * Pow2(k)
  {
    if k > 0 {
      Pow2Sum(j, k - 1);
      assert Pow2(j) * Pow2(k) == 2 * (Pow2(j) * Pow2(k - 1));
    }
  }

  lemma PowerIs(s: nat)
    requires ShiftOfMix(s)
    ensures Pow2(s) == Power(s)
  {
    hide Pow2;
    SmallPowers();
    Pow2Of30();
    Pow2Sum(32, 3);
    Pow2Sum(32, 6);
    Pow2Sum(32, 11);
    Pow2Sum(32, 17);
    Pow2Sum(11, 11);
    Pow2Sum(12, 11);
    Pow2Sum(12, 6);
    Pow2Sum(12, 5);
  }

  lemma SmallPowers()
    ensures Pow2(3) == 8 && Pow2(5) == 32 && Pow2(6) == 64 && Pow2(8) == 256 && Pow2(9) == 512
    ensures Pow2(11) == 2048 && Pow2(12) == 4096
  {
  }

  lemma {:induction false} ShlIs(x: nat, k: nat)
    ensures Shl(x, k) == x * Pow2(k)
  {
    if k > 0 {
      ShlIs(x, k - 1);
      assert x * Pow2(k) == 2 * (x * Pow2(k - 1));
    }
  }

  lemma RightIs(x: U64, s: nat, q: U64)
    requires ShiftOfMix(s) && x / Power(s) == q
    ensures Right(x, s) == q
  {
    hide Pow2, Shl, Shr, Low, Power;
    PowerIs(s);
    ShlIs(q, s);
    DivideBy(x, Power(s));
    Join(q, x % Power(s), s);
  }

  lemma DivideBy(x: nat, p: nat)
    requires p > 0
    ensures x == x / p * p + x % p && x % p < p
  {
  }

  lemma LeftIs(x: U64, s: nat, z: U64)
    requires ShiftOfMix(s) && x * Power(s) % M64 == z
    ensures Left(x, s) == z
  {
    hide Pow2, Shl, Shr, Low, Power;
    PowerIs(s);
    ShlIs(x, s);
    var y := x * Power(s);
    Pow2Of64();
    ShlIs(y / M64, 64);
    DivideBy(y, M64);
    Join(y / M64, z, 64);
  }

  lemma BlendIs(x: U64, y: U64, z: U64, w: U64, r: U64, d: U64)
    requires d == Sub(Sub(x, y), z) && Xor(d, w) == r
    ensures Blend(x, y, z, w) == r
  {
    hide Xor, Sub;
  }

  // ---------------------------------------------------------------- mix64 and lookup8

  lemma Line1(x: U64, y: U64, z: U64, d: U64, w: U64, r: U64)
    requires x == 0x807_0605_0403_0206 && y == 0x100f_0e0d_0c0b_0a0e && z == 0x9e37_79b9_7f5c_8d25
    requires d == 0x59c0_7e3e_789b_6ad3 && w == 0x13_c6ef && r == 0x59c0_7e3e_7888_ac3c
    ensures Blend(x, y, z, Right(z, 43)) == r
  {
    hide Blend, Right, Xor;
    RightIs(z, 43, w);
    XorLine1(d, w, r);
    BlendIs(x, y, z, w, r, d);
  }

  lemma XorLine1(x: nat, y: nat, z: nat)
    requires x == 0x59c0_7e3e_789b_6ad3 && y == 0x13_c6ef && z == 0x59c0_7e3e_7888_ac3c
    ensures Xor(x, y) == z
  {
    hide Xor;
    XorIs(x, y, z, 0x59c0_7e3e_789b_6ad3, 0x13_c6ef, 0x59c0_7e3e_7888_ac3c);
  }

  lemma Line2(x: U64, y: U64, z: U64, d: U64, w: U64, r: U64)
    requires x == 0x100f_0e0d_0c0b_0a0e && y == 0x9e37_79b9_7f5c_8d25 && z == 0x59c0_7e3e_7888_ac3c
    requires d == 0x1817_1615_1425_d0ad && w == 0x80fc_7cf1_1158_7800 && r == 0x98eb_6ae4_057d_a8ad
    ensures Blend(x, y, z, Left(z, 9)) == r
  {
    hide Blend, Left, Xor;
    LeftIs(z, 9, w);
    XorLine2(d, w, r);
    BlendIs(x, y, z, w, r, d);
  }

  lemma XorLine2(x: nat, y: nat, z: nat)
    requires x == 0x1817_1615_1425_d0ad && y == 0x80fc_7cf1_1158_7800 && z == 0x98eb_6ae4_057d_a8ad
    ensures Xor(x, y) == z
  {
    hide Xor;
    XorIs(x, y, z, 0x1817_1615_1425_d0ad, 0x80fc_7cf1_1158_7800, 0x98eb_6ae4_057d_a8ad);
  }

  lemma Line3(x: U64, y: U64, z: U64, d: U64, w: U64, r: U64)
    requires x == 0x9e37_79b9_7f5c_8d25 && y == 0x59c0_7e3e_7888_ac3c && z == 0x98eb_6ae4_057d_a8ad
    requires d == 0xab8b_9097_0156_383c && w == 0x98_eb6a_e405_7da8 && r == 0xab13_7bfd_e553_4594
    ensures Blend(x, y, z, Right(z, 8)) == r
  {
    hide Blend, Right, Xor;
    RightIs(z, 8, w);
    XorLine3(d, w, r);
    BlendIs(x, y, z, w, r, d);
  }

  lemma XorLine3(x: nat, y: nat, z: nat)
    requires x == 0xab8b_9097_0156_383c && y == 0x98_eb6a_e405_7da8 && z == 0xab13_7bfd_e553_4594
    ensures Xor(x, y) == z
  {
    hide Xor;
    XorIs(x, y, z, 0xab8b_9097_0156_383c, 0x98_eb6a_e405_7da8, 0xab13_7bfd_e553_4594);
  }

  lemma Line4(x: U64, y: U64, z: U64, d: U64, w: U64, r: U64)
    requires x == 0x59c0_7e3e_7888_ac3c && y == 0x98eb_6ae4_057d_a8ad && z == 0xab13_7bfd_e553_4594
    requires d == 0x15c1_975c_8db7_bdfb && w == 0x2ac_4def && r == 0x15c1_975c_8f1b_f014
    ensures Blend(x, y, z, Right(z, 38)) == r
  {
    hide Blend, Right, Xor;
    RightIs(z, 38, w);
    XorLine4(d, w, r);
    BlendIs(x, y, z, w, r, d);
  }

  lemma XorLine4(x: nat, y: nat, z: nat)
    requires x == 0x15c1_975c_8db7_bdfb && y == 0x2ac_4def && z == 0x15c1_975c_8f1b_f014
    ensures Xor(x, y) == z
  {
    hide Xor;
    XorIs(x, y, z, 0x15c1_975c_8db7_bdfb, 0x2ac_4def, 0x15c1_975c_8f1b_f014);
  }

  lemma Line5(x: U64, y: U64, z: U64, d: U64, w: U64, r: U64)
    requires x == 0x98eb_6ae4_057d_a8ad && y == 0xab13_7bfd_e553_4594 && z == 0x15c1_975c_8f1b_f014
    requires d == 0xd816_5789_910e_7305 && w == 0xae47_8df8_0a00_0000 && r == 0x7651_da71_9b0e_7305
    ensures Blend(x, y, z, Left(z, 23)) == r
  {
    hide Blend, Left, Xor;
    LeftIs(z, 23, w);
    XorLine5(d, w, r);
    BlendIs(x, y, z, w, r, d);
  }

  lemma XorLine5(x: nat, y: nat, z: nat)
    requires x == 0xd816_5789_910e_7305 && y == 0xae47_8df8_0a00_0000 && z == 0x7651_da71_9b0e_7305
    ensures Xor(x, y) == z
  {
    hide Xor;
    XorIs(x, y, z, 0xd816_5789_910e_7305, 0xae47_8df8_0a00_0000, 0x7651_da71_9b0e_7305);
  }

  lemma Line6(x: U64, y: U64, z: U64, d: U64, w: U64, r: U64)
    requires x == 0xab13_7bfd_e553_4594 && y == 0x15c1_975c_8f1b_f014 && z == 0x7651_da71_9b0e_7305
    requires d == 0x1f00_0a2f_bb28_e27b && w == 0x3b2_8ed3_8cd8_7398 && r == 0x1cb2_84fc_37f0_91e3
    ensures Blend(x, y, z, Right(z, 5)) == r
  {
    hide Blend, Right, Xor;
    RightIs(z, 5, w);
    XorLine6(d, w, r);
    BlendIs(x, y, z, w, r, d);
  }

  lemma XorLine6(x: nat, y: nat, z: nat)
    requires x == 0x1f00_0a2f_bb28_e27b && y == 0x3b2_8ed3_8cd8_7398 && z == 0x1cb2_84fc_37f0_91e3
    ensures Xor(x, y) == z
  {
    hide Xor;
    XorIs(x, y, z, 0x1f00_0a2f_bb28_e27b, 0x3b2_8ed3_8cd8_7398, 0x1cb2_84fc_37f0_91e3);
  }

  lemma Line7(x: U64, y: U64, z: U64, d: U64, w: U64, r: U64)
    requires x == 0x15c1_975c_8f1b_f014 && y == 0x7651_da71_9b0e_7305 && z == 0x1cb2_84fc_37f0_91e3
    requires d == 0x82bd_37ee_bc1c_eb2c && w == 0x396_509f && r == 0x82bd_37ee_bf8a_bbb3
    ensures Blend(x, y, z, Right(z, 35)) == r
  {
    hide Blend, Right, Xor;
    RightIs(z, 35, w);
    XorLine7(d, w, r);
    BlendIs(x, y, z, w, r, d);
  }

  lemma XorLine7(x: nat, y: nat, z: nat)
    requires x == 0x82bd_37ee_bc1c_eb2c && y == 0x396_509f && z == 0x82bd_37ee_bf8a_bbb3
    ensures Xor(x, y) == z
  {
    hide Xor;
    XorIs(x, y, z, 0x82bd_37ee_bc1c_eb2c, 0x396_509f, 0x82bd_37ee_bf8a_bbb3);
  }

  lemma Line8(x: U64, y: U64, z: U64, d: U64, w: U64, r: U64)
    requires x == 0x7651_da71_9b0e_7305 && y == 0x1cb2_84fc_37f0_91e3 && z == 0x82bd_37ee_bf8a_bbb3
    requires d == 0xd6e2_1d86_a393_256f && w == 0x7766_0000_0000_0000 && r == 0xa184_1d86_a393_256f
    ensures Blend(x, y, z, Left(z, 49)) == r
  {
    hide Blend, Left, Xor;
    LeftIs(z, 49, w);
    XorLine8(d, w, r);
    BlendIs(x, y, z, w, r, d);
  }

  lemma XorLine8(x: nat, y: nat, z: nat)
    requires x == 0xd6e2_1d86_a393_256f && y == 0x7766_0000_0000_0000 && z == 0xa184_1d86_a393_256f
    ensures Xor(x, y) == z
  {
    hide Xor;
    XorIs(x, y, z, 0xd6e2_1d86_a393_256f, 0x7766_0000_0000_0000, 0xa184_1d86_a393_256f);
  }

  lemma Line9(x: U64, y: U64, z: U64, d: U64, w: U64, r: U64)
    requires x == 0x1cb2_84fc_37f0_91e3 && y == 0x82bd_37ee_bf8a_bbb3 && z == 0xa184_1d86_a393_256f
    requires d == 0xf871_2f86_d4d2_b0c1 && w == 0x14_3083_b0d4_7264 && r == 0xf865_1f05_6406_c2a5
    ensures Blend(x, y, z, Right(z, 11)) == r
  {
    hide Blend, Right, Xor;
    RightIs(z, 11, w);
    XorLine9(d, w, r);
    BlendIs(x, y, z, w, r, d);
  }

  lemma XorLine9(x: nat, y: nat, z: nat)
    requires x == 0xf871_2f86_d4d2_b0c1 && y == 0x14_3083_b0d4_7264 && z == 0xf865_1f05_6406_c2a5
    ensures Xor(x, y) == z
  {
    hide Xor;
    XorIs(x, y, z, 0xf871_2f86_d4d2_b0c1, 0x14_3083_b0d4_7264, 0xf865_1f05_6406_c2a5);
  }

  lemma Line10(x: U64, y: U64, z: U64, d: U64, w: U64, r: U64)
    requires x == 0x82bd_37ee_bf8a_bbb3 && y == 0xa184_1d86_a393_256f && z == 0xf865_1f05_6406_c2a5
    requires d == 0xe8d3_fb62_b7f0_d39f && w == 0xf_8651_f056_406c && r == 0xe8dc_7d33_47a6_93f3
    ensures Blend(x, y, z, Right(z, 12)) == r
  {
    hide Blend, Right, Xor;
    RightIs(z, 12, w);
    XorLine10(d, w, r);
    BlendIs(x, y, z, w, r, d);
  }

  lemma XorLine10(x: nat, y: nat, z: nat)
    requires x == 0xe8d3_fb62_b7f0_d39f && y == 0xf_8651_f056_406c && z == 0xe8dc_7d33_47a6_93f3
    ensures Xor(x, y) == z
  {
    hide Xor;
    XorIs(x, y, z, 0xe8d3_fb62_b7f0_d39f, 0xf_8651_f056_406c, 0xe8dc_7d33_47a6_93f3);
  }

  lemma Line11(x: U64, y: U64, z: U64, d: U64, w: U64, r: U64)
    requires x == 0xa184_1d86_a393_256f && y == 0xf865_1f05_6406_c2a5 && z == 0xe8dc_7d33_47a6_93f3
    requires d == 0xc042_814d_f7e5_ced7 && w == 0xf4cd_1e9a_4fcc_0000 && r == 0x348f_9fd7_b829_ced7
    ensures Blend(x, y, z, Left(z, 18)) == r
  {
    hide Blend, Left, Xor;
    LeftIs(z, 18, w);
    XorLine11(d, w, r);
    BlendIs(x, y, z, w, r, d);
  }

  lemma XorLine11(x: nat, y: nat, z: nat)
    requires x == 0xc042_814d_f7e5_ced7 && y == 0xf4cd_1e9a_4fcc_0000 && z == 0x348f_9fd7_b829_ced7
    ensures Xor(x, y) == z
  {
    hide Xor;
    XorIs(x, y, z, 0xc042_814d_f7e5_ced7, 0xf4cd_1e9a_4fcc_0000, 0x348f_9fd7_b829_ced7);
  }

  lemma Line12(x: U64, y: U64, z: U64, d: U64, w: U64, r: U64)
    requires x == 0xf865_1f05_6406_c2a5 && y == 0xe8dc_7d33_47a6_93f3 && z == 0x348f_9fd7_b829_ced7
    requires d == 0xdaf9_01fa_6436_5fdb && w == 0xd2_3e7f_5ee0 && r == 0xdaf9_0128_5a49_013b
    ensures Blend(x, y, z, Right(z, 22)) == r
  {
    hide Blend, Right, Xor;
    RightIs(z, 22, w);
    XorLine12(d, w, r);
    BlendIs(x, y, z, w, r, d);
  }

  lemma XorLine12(x: nat, y: nat, z: nat)
    requires x == 0xdaf9_01fa_6436_5fdb && y == 0xd2_3e7f_5ee0 && z == 0xdaf9_0128_5a49_013b
    ensures Xor(x, y) == z
  {
    hide Xor;
    XorIs(x, y, z, 0xdaf9_01fa_6436_5fdb, 0xd2_3e7f_5ee0, 0xdaf9_0128_5a49_013b);
  }

  lemma Round1(m: Mixer)
    requires m == Mixer(0x807_0605_0403_0206, 0x100f_0e0d_0c0b_0a0e, 0x9e37_79b9_7f5c_8d25)
    ensures Round(m, 43, 9, 8) == Mixer(0x59c0_7e3e_7888_ac3c, 0x98eb_6ae4_057d_a8ad, 0xab13_7bfd_e553_4594)
  {
    hide Blend, Left, Right;
    Line1(m.a, m.b, m.c, 0x59c0_7e3e_789b_6ad3, 0x13_c6ef, 0x59c0_7e3e_7888_ac3c);
    Line2(m.b, m.c, 0x59c0_7e3e_7888_ac3c, 0x1817_1615_1425_d0ad, 0x80fc_7cf1_1158_7800, 0x98eb_6ae4_057d_a8ad);
    Line3(m.c, 0x59c0_7e3e_7888_ac3c, 0x98eb_6ae4_057d_a8ad,
          0xab8b_9097_0156_383c, 0x98_eb6a_e405_7da8, 0xab13_7bfd_e553_4594);
  }

  lemma Round2(m: Mixer)
    requires m == Mixer(0x59c0_7e3e_7888_ac3c, 0x98eb_6ae4_057d_a8ad, 0xab13_7bfd_e553_4594)
    ensures Round(m, 38, 23, 5) == Mixer(0x15c1_975c_8f1b_f014, 0x7651_da71_9b0e_7305, 0x1cb2_84fc_37f0_91e3)
  {
    hide Blend, Left, Right;
    Line4(m.a, m.b, m.c, 0x15c1_975c_8db7_bdfb, 0x2ac_4def, 0x15c1_975c_8f1b_f014);
    Line5(m.b, m.c, 0x15c1_975c_8f1b_f014, 0xd816_5789_910e_7305, 0xae47_8df8_0a00_0000, 0x7651_da71_9b0e_7305);
    Line6(m.c, 0x15c1_975c_8f1b_f014, 0x7651_da71_9b0e_7305,
          0x1f00_0a2f_bb28_e27b, 0x3b2_8ed3_8cd8_7398, 0x1cb2_84fc_37f0_91e3);
  }

  lemma Round3(m: Mixer)
    requires m == Mixer(0x15c1_975c_8f1b_f014, 0x7651_da71_9b0e_7305, 0x1cb2_84fc_37f0_91e3)
    ensures Round(m, 35, 49, 11) == Mixer(0x82bd_37ee_bf8a_bbb3, 0xa184_1d86_a393_256f, 0xf865_1f05_6406_c2a5)
  {
    hide Blend, Left, Right;
    Line7(m.a, m.b, m.c, 0x82bd_37ee_bc1c_eb2c, 0x396_509f, 0x82bd_37ee_bf8a_bbb3);
    Line8(m.b, m.c, 0x82bd_37ee_bf8a_bbb3, 0xd6e2_1d86_a393_256f, 0x7766_0000_0000_0000, 0xa184_1d86_a393_256f);
    Line9(m.c, 0x82bd_37ee_bf8a_bbb3, 0xa184_1d86_a393_256f,
          0xf871_2f86_d4d2_b0c1, 0x14_3083_b0d4_7264, 0xf865_1f05_6406_c2a5);
  }

  lemma Round4(m: Mixer)
    requires m == Mixer(0x82bd_37ee_bf8a_bbb3, 0xa184_1d86_a393_256f, 0xf865_1f05_6406_c2a5)
    ensures Round(m, 12, 18, 22) == Mixer(0xe8dc_7d33_47a6_93f3, 0x348f_9fd7_b829_ced7, 0xdaf9_0128_5a49_013b)
  {
    hide Blend, Left, Right;
    Line10(m.a, m.b, m.c, 0xe8d3_fb62_b7f0_d39f, 0xf_8651_f056_406c, 0xe8dc_7d33_47a6_93f3);
    Line11(m.b, m.c, 0xe8dc_7d33_47a6_93f3, 0xc042_814d_f7e5_ced7, 0xf4cd_1e9a_4fcc_0000, 0x348f_9fd7_b829_ced7);
    Line12(m.c, 0xe8dc_7d33_47a6_93f3, 0x348f_9fd7_b829_ced7,
           0xdaf9_01fa_6436_5fdb, 0xd2_3e7f_5ee0, 0xdaf9_0128_5a49_013b);
  }

  /** mix64, with all its shifts. */
  lemma Mix64Answer(m: Mixer)
    requires m == Mixer(0x807_0605_0403_0206, 0x100f_0e0d_0c0b_0a0e, 0x9e37_79b9_7f5c_8d25)
    ensures Mix64(m) == Mixer(0xe8dc_7d33_47a6_93f3, 0x348f_9fd7_b829_ced7, 0xdaf9_0128_5a49_013b)
  {
    hide Round;
    Round1(m);
    Round2(Mixer(0x59c0_7e3e_7888_ac3c, 0x98eb_6ae4_057d_a8ad, 0xab13_7bfd_e553_4594));
    Round3(Mixer(0x15c1_975c_8f1b_f014, 0x7651_da71_9b0e_7305, 0x1cb2_84fc_37f0_91e3));
    Round4(Mixer(0x82bd_37ee_bf8a_bbb3, 0xa184_1d86_a393_256f, 0xf865_1f05_6406_c2a5));
  }

  /** Eight bytes, least significant first. */
  lemma WordOf(k: Name, from: nat, n: nat)
    requires n > 0
    ensures Word(k, from, n) == At(k, from) + 256 * Word(k, from + 1, n - 1)
  {
    Multiple256(Shl(Word(k, from + 1, n - 1), 8), Word(k, from + 1, n - 1));
  }

  /** The key of bytes 1 to 18. */
  function Key(): Name { [1, 2, 3, 4, 5, 6, 7, 8, 9, 10, 11, 12, 13, 14, 15, 16, 17, 18] }

  /** Seven or eight bytes as one number. */
  lemma WordBytes(k: Name, from: nat, n: nat)
    requires n == 7
    ensures Word(k, from, n) == At(k, from) + 0x100 * At(k, from + 1) + 0x1_0000 * At(k, from + 2)
                                + 0x100_0000 * At(k, from + 3) + 0x1_0000_0000 * At(k, from + 4)
                                + 0x100_0000_0000 * At(k, from + 5) + 0x1_0000_0000_0000 * At(k, from + 6)
    ensures Word(k, from, n + 1) == Word(k, from, n) + 0x100_0000_0000_0000 * At(k, from + 7)
  {
    hide Word, At;
    WordOf(k, from, n);
    WordOf(k, from + 1, n - 1);
    WordOf(k, from + 2, n - 2);
    WordOf(k, from + 3, n - 3);
    WordOf(k, from + 4, n - 4);
    WordOf(k, from + 5, n - 5);
    WordOf(k, from + 6, n - 6);
    WordTail(k, from + 7);
    WordOf(k, from, n + 1);
    WordOf(k, from + 1, n);
    WordOf(k, from + 2, n - 1);
    WordOf(k, from + 3, n - 2);
    WordOf(k, from + 4, n - 3);
    WordOf(k, from + 5, n - 4);
    WordOf(k, from + 6, n - 5);
    WordOf(k, from + 7, n - 6);
    WordTail(k, from + 8);
  }

  lemma WordAnswers(k: Name)
    requires k == Key()
    ensures Word(k, 0, 8) == 0x0807_0605_0403_0201 && Word(k, 8, 8) == 0x100f_0e0d_0c0b_0a09
  {
    hide Word;
    WordBytes(k, 0, 7);
    WordBytes(k, 8, 7);
  }

  lemma WordTail(k: Name, from: nat)
    ensures Word(k, from, 0) == 0
  {
  }

  lemma HighAnswer(k: Name)
    requires k == Key()
    ensures HighWord(k, 16) == 0x12_1100
  {
    hide Word, Shl;
    WordBytes(k, 16, 7);
    Multiple256(Shl(Word(k, 16, 7), 8), Word(k, 16, 7));
  }

  /** lookup8 of that key at level 5. */
  lemma HashAnswer(k: Name, level: U64)
    requires k == Key() && level == 5
    ensures Hash(k, level) == 0xdaf9_0128_5a49_013b
  {
    hide Mix64, Word, HighWord;
    WordAnswers(k);
    HighAnswer(k);
    assert Blocks(k, Start(level)) == (Start(level), k);
    Mix64Answer(Finish(k, |k|, Start(level)));
  }

  // ---------------------------------------------------------------- permute

  lemma AddShiftIs(x: nat, c: nat, nbits: nat, p: nat, m: nat, q: nat, z: nat)
    requires nbits <= 32 && Pow2(c) == p && Pow2(nbits) == m && x + x * p == q * m + z && z < m
    ensures Scramble.AddShift(x, c, nbits) == z
  {
    hide Low, Shl, Shr, Pow2;
    Scramble.AddShiftPlain(x, c, nbits);
    ShlIs(x, c);
    ShlIs(q, nbits);
    Join(q, z, nbits);
  }

  lemma XorShiftIs(x: nat, c: nat, p: nat, q: nat, r: nat, z: nat)
    requires Pow2(c) == p && x == q * p + r && r < p && Xor(x, q) == z
    ensures Scramble.XorShift(x, c) == z
  {
    hide Xor, Shl, Shr, Low, Pow2;
    ShlIs(q, c);
    Join(q, r, c);
  }

  /** The powers of two that occur below. */
  lemma TinyPowers()
    ensures Pow2(1) == 2 && Pow2(2) == 4 && Pow2(3) == 8 && Pow2(4) == 16 && Pow2(7) == 128
  {
  }

  /** One round with seven bits, by its four intermediate values. */
  lemma Round7(x: nat, x1: nat, q1: nat, x2: nat, x3: nat, q3: nat, y: nat, nbits: nat)
    requires nbits == 7 && x < 128 && x1 < 128 && x2 < 128 && x3 < 128
    requires 17 * x % 128 == x1 && x1 / 8 == q1 && Xor(x1, q1) == x2
    requires 5 * x2 % 128 == x3 && x3 / 4 == q3 && Xor(x3, q3) == y
    ensures Scramble.Round(x, nbits) == y
  {
    hide Pow2, Xor, Scramble.AddShift, Scramble.XorShift;
    TinyPowers();
    AddShiftIs(x, 4, nbits, 16, 128, 17 * x / 128, x1);
    XorShiftIs(x1, 3, 8, q1, x1 % 8, x2);
    AddShiftIs(x2, 2, nbits, 4, 128, 5 * x2 / 128, x3);
    XorShiftIs(x3, 2, 4, q3, x3 % 4, y);
  }

  /** One round with three bits. */
  lemma Round3Bits(x: nat, x1: nat, q1: nat, x2: nat, x3: nat, q3: nat, y: nat, nbits: nat)
    requires nbits == 3 && x < 8 && x1 < 8 && x2 < 8 && x3 < 8
    requires 5 * x % 8 == x1 && x1 / 4 == q1 && Xor(x1, q1) == x2
    requires 3 * x2 % 8 == x3 && x3 / 2 == q3 && Xor(x3, q3) == y
    ensures Scramble.Round(x, nbits) == y
  {
    hide Pow2, Xor, Scramble.AddShift, Scramble.XorShift;
    TinyPowers();
    AddShiftIs(x, 2, nbits, 4, 8, 5 * x / 8, x1);
    XorShiftIs(x1, 2, 4, q1, x1 % 4, x2);
    AddShiftIs(x2, 1, nbits, 2, 8, 3 * x2 / 8, x3);
    XorShiftIs(x3, 1, 2, q3, x3 % 2, y);
  }

  lemma From1With7(x: nat, x1: nat, q1: nat, x2: nat, x3: nat, q3: nat, y: nat, nbits: nat)
    requires x == 1 && x1 == 17 && q1 == 2 && x2 == 19 && x3 == 95 && q3 == 23 && y == 72 && nbits == 7
    ensures Scramble.Round(x, nbits) == y
  {
    hide Scramble.Round, Xor;
    XorIs(x1, q1, x2, 17, 2, 19);
    XorIs(x3, q3, y, 95, 23, 72);
    Round7(x, x1, q1, x2, x3, q3, y, nbits);
  }

  lemma From72With7(x: nat, x1: nat, q1: nat, x2: nat, x3: nat, q3: nat, y: nat, nbits: nat)
    requires x == 72 && x1 == 72 && q1 == 9 && x2 == 65 && x3 == 69 && q3 == 17 && y == 84 && nbits == 7
    ensures Scramble.Round(x, nbits) == y
  {
    hide Scramble.Round, Xor;
    XorIs(x1, q1, x2, 72, 9, 65);
    XorIs(x3, q3, y, 69, 17, 84);
    Round7(x, x1, q1, x2, x3, q3, y, nbits);
  }

  lemma From84With7(x: nat, x1: nat, q1: nat, x2: nat, x3: nat, q3: nat, y: nat, nbits: nat)
    requires x == 84 && x1 == 20 && q1 == 2 && x2 == 22 && x3 == 110 && q3 == 27 && y == 117 && nbits == 7
    ensures Scramble.Round(x, nbits) == y
  {
    hide Scramble.Round, Xor;
    XorIs(x1, q1, x2, 20, 2, 22);
    XorIs(x3, q3, y, 110, 27, 117);
    Round7(x, x1, q1, x2, x3, q3, y, nbits);
  }

  lemma From117With7(x: nat, x1: nat, q1: nat, x2: nat, x3: nat, q3: nat, y: nat, nbits: nat)
    requires x == 117 && x1 == 69 && q1 == 8 && x2 == 77 && x3 == 1 && q3 == 0 && y == 1 && nbits == 7
    ensures Scramble.Round(x, nbits) == y
  {
    hide Scramble.Round, Xor;
    XorIs(x1, q1, x2, 69, 8, 77);
    XorIs(x3, q3, y, 1, 0, 1);
    Round7(x, x1, q1, x2, x3, q3, y, nbits);
  }

  lemma From1With3(x: nat, x1: nat, q1: nat, x2: nat, x3: nat, q3: nat, y: nat, nbits: nat)
    requires x == 1 && x1 == 5 && q1 == 1 && x2 == 4 && x3 == 4 && q3 == 2 && y == 6 && nbits == 3
    ensures Scramble.Round(x, nbits) == y
  {
    hide Scramble.Round, Xor;
    XorIs(x1, q1, x2, 5, 1, 4);
    XorIs(x3, q3, y, 4, 2, 6);
    Round3Bits(x, x1, q1, x2, x3, q3, y, nbits);
  }

  lemma From6With3(x: nat, x1: nat, q1: nat, x2: nat, x3: nat, q3: nat, y: nat, nbits: nat)
    requires x == 6 && x1 == 6 && q1 == 1 && x2 == 7 && x3 == 5 && q3 == 2 && y == 7 && nbits == 3
    ensures Scramble.Round(x, nbits) == y
  {
    hide Scramble.Round, Xor;
    XorIs(x1, q1, x2, 6, 1, 7);
    XorIs(x3, q3, y, 5, 2, 7);
    Round3Bits(x, x1, q1, x2, x3, q3, y, nbits);
  }

  lemma From7With3(x: nat, x1: nat, q1: nat, x2: nat, x3: nat, q3: nat, y: nat, nbits: nat)
    requires x == 7 && x1 == 3 && q1 == 0 && x2 == 3 && x3 == 1 && q3 == 0 && y == 1 && nbits == 3
    ensures Scramble.Round(x, nbits) == y
  {
    hide Scramble.Round, Xor;
    XorIs(x1, q1, x2, 3, 0, 3);
    XorIs(x3, q3, y, 1, 0, 1);
    Round3Bits(x, x1, q1, x2, x3, q3, y, nbits);
  }

  /** With seven bits 1 comes back after every four rounds, with three bits after every three. */
  lemma {:induction false} Cycle7(n: nat, nbits: nat)
    requires nbits == 7
    ensures Scramble.Rounds(1, nbits, 4 * n) == 1
  {
    hide Scramble.Round;
    if n > 0 {
      Cycle7(n - 1, nbits);
      From1With7(1, 17, 2, 19, 95, 23, 72, nbits);
      From72With7(72, 72, 9, 65, 69, 17, 84, nbits);
      From84With7(84, 20, 2, 22, 110, 27, 117, nbits);
      From117With7(117, 69, 8, 77, 1, 0, 1, nbits);
      RoundsFour(1, nbits, 4 * (n - 1));
    }
  }

  lemma RoundsFour(x: nat, nbits: nat, n: nat)
    ensures var y := Scramble.Rounds(x, nbits, n);
            Scramble.Rounds(x, nbits, n + 4)
            == Scramble.Round(Scramble.Round(Scramble.Round(Scramble.Round(y, nbits), nbits), nbits), nbits)
    ensures var y := Scramble.Rounds(x, nbits, n);
            && Scramble.Rounds(x, nbits, n + 2) == Scramble.Round(Scramble.Round(y, nbits), nbits)
            && Scramble.Rounds(x, nbits, n + 3) == Scramble.Round(Scramble.Rounds(x, nbits, n + 2), nbits)
  {
    hide Scramble.Round;
    assert Scramble.Rounds(x, nbits, n + 1) == Scramble.Round(Scramble.Rounds(x, nbits, n), nbits);
    assert Scramble.Rounds(x, nbits, n + 2) == Scramble.Round(Scramble.Rounds(x, nbits, n + 1), nbits);
    assert Scramble.Rounds(x, nbits, n + 3) == Scramble.Round(Scramble.Rounds(x, nbits, n + 2), nbits);
  }

  lemma {:induction false} Cycle3(n: nat, nbits: nat)
    requires nbits == 3
    ensures Scramble.Rounds(1, nbits, 3 * n) == 1
  {
    hide Scramble.Round;
    if n > 0 {
      Cycle3(n - 1, nbits);
      From1With3(1, 5, 1, 4, 4, 2, 6, nbits);
      From6With3(6, 6, 1, 7, 5, 2, 7, nbits);
      From7With3(7, 3, 0, 3, 1, 0, 1, nbits);
      RoundsFour(1, nbits, 3 * (n - 1));
    }
  }

  /** permute of 1: twenty rounds are a multiple of four, and two more than a multiple of three. */
  lemma PermuteAnswers(seven: nat, three: nat)
    requires seven == 7 && three == 3
    ensures Scramble.PermuteSpec(1, seven) == 1
    ensures Scramble.PermuteSpec(1, three) == 7
  {
    hide Scramble.Rounds, Scramble.Round;
    Cycle7(5, seven);
    Cycle3(6, three);
    RoundsFour(1, three, 18);
    From1With3(1, 5, 1, 4, 4, 2, 6, three);
    From6With3(6, 6, 1, 7, 5, 2, 7, three);
  }

  // ---------------------------------------------------------------- sizes

  /** The first blen of a search is a sixteenth, an eighth or a quarter of smax, by the load. */
  lemma InitialBlenAnswers()
    ensures InitialBlen(1024, 614) == 64 && InitialBlen(1024, 615) == 128
    ensures InitialBlen(1024, 819) == 128 && InitialBlen(1024, 820) == 256
    ensures InitialBlen(8, 1) == 1 && InitialBlen(1, 1) == 1
  {
  }

  /** A hash table shrinks upon an erase above 1024 buckets, when fewer than a sixteenth are in use. */
  lemma SparseAnswers()
    ensures Sparse(2048, 127) && !Sparse(2048, 128) && !Sparse(1024, 1) && !Sparse(2048, 0)
  {
  }
}
