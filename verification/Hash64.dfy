/** `mix64` and `lookup8`: the 64-bit hash behind the shared cache tables. */
module Hash64 {
  import opened Bits

  const M64: nat := 0x1_0000_0000_0000_0000

  type Byte = x: nat | x < 256
  type U64 = x: nat | x < 0x1_0000_0000_0000_0000
  type Name = seq<Byte>

  /** The three 64-bit words of the hash state. */
  datatype Mixer = Mixer(a: U64, b: U64, c: U64)

  function Add(x: U64, y: U64): U64 { if x + y < M64 then x + y else x + y - M64 }

  function Sub(x: U64, y: U64): U64 { if x >= y then x - y else x + M64 - y }

  function Xor64(x: U64, y: U64): U64 {
    Pow2Of64(); XorBound(x, y, 64);
    Xor(x, y)
  }

  function Right(x: U64, s: nat): U64 {
    ShrLess(x, s);
    Shr(x, s)
  }

  function Left(x: U64, s: nat): U64 {
    Pow2Of64();
    Low(Shl(x, s), 64)
  }

  /** x -= y; x -= z; x ^= w. */
  function Blend(x: U64, y: U64, z: U64, w: U64): U64 { Xor64(Sub(Sub(x, y), z), w) }

  function Unblend(x: U64, y: U64, z: U64, w: U64): U64 { Add(Add(Xor64(x, w), z), y) }

  /** Three of the twelve lines of mix64, with their shift amounts. */
  function Round(m: Mixer, s: nat, t: nat, u: nat): Mixer {
    var a := Blend(m.a, m.b, m.c, Right(m.c, s));
    var b := Blend(m.b, m.c, a, Left(a, t));
    var c := Blend(m.c, a, b, Right(b, u));
    Mixer(a, b, c)
  }

  function Unround(m: Mixer, s: nat, t: nat, u: nat): Mixer {
    var c := Unblend(m.c, m.a, m.b, Right(m.b, u));
    var b := Unblend(m.b, c, m.a, Left(m.a, t));
    var a := Unblend(m.a, b, c, Right(c, s));
    Mixer(a, b, c)
  }

  function Mix64(m: Mixer): Mixer {
    Round(Round(Round(Round(m, 43, 9, 8), 38, 23, 5), 35, 49, 11), 12, 18, 22)
  }

  function Unmix64(m: Mixer): Mixer {
    Unround(Unround(Unround(Unround(m, 12, 18, 22), 35, 49, 11), 38, 23, 5), 43, 9, 8)
  }

  lemma BlendInverse(x: U64, y: U64, z: U64, w: U64)
    ensures Unblend(Blend(x, y, z, w), y, z, w) == x
    ensures Blend(Unblend(x, y, z, w), y, z, w) == x
  {
    hide Xor;
    XorUndo(Sub(Sub(x, y), z), w);
    XorUndo(x, w);
  }

  lemma RoundInverse(m: Mixer, s: nat, t: nat, u: nat)
    ensures Unround(Round(m, s, t, u), s, t, u) == m
    ensures Round(Unround(m, s, t, u), s, t, u) == m
  {
    hide Blend, Unblend, Left, Right;
    var f := Round(m, s, t, u);
    BlendInverse(m.a, m.b, m.c, Right(m.c, s));
    BlendInverse(m.b, m.c, f.a, Left(f.a, t));
    BlendInverse(m.c, f.a, f.b, Right(f.b, u));
    var g := Unround(m, s, t, u);
    BlendInverse(m.c, m.a, m.b, Right(m.b, u));
    BlendInverse(m.b, g.c, m.a, Left(m.a, t));
    BlendInverse(m.a, g.b, g.c, Right(g.c, s));
  }

  /** mix64 is a bijection of the 2^192 states: Unmix64 is its two-sided inverse. */
  lemma Mix64Bijective(m: Mixer)
    ensures Unmix64(Mix64(m)) == m
    ensures Mix64(Unmix64(m)) == m
  {
    hide Round, Unround;
    RoundInverse(m, 43, 9, 8);
    var m1 := Round(m, 43, 9, 8);
    RoundInverse(m1, 38, 23, 5);
    var m2 := Round(m1, 38, 23, 5);
    RoundInverse(m2, 35, 49, 11);
    RoundInverse(Round(m2, 35, 49, 11), 12, 18, 22);
    RoundInverse(m, 12, 18, 22);
    var n1 := Unround(m, 12, 18, 22);
    RoundInverse(n1, 35, 49, 11);
    var n2 := Unround(n1, 35, 49, 11);
    RoundInverse(n2, 38, 23, 5);
    RoundInverse(Unround(n2, 38, 23, 5), 43, 9, 8);
  }

  // ---------------------------------------------------------------- bytes to words

  function At(k: Name, i: nat): Byte { if i < |k| then k[i] else 0 }

  /** The n bytes of k from position `from`, least significant first: k[from] + (k[from+1] << 8)
      + ...; a byte past the end of the key adds nothing. */
  function Word(k: Name, from: nat, n: nat): nat
    decreases n
  {
    if n == 0 then 0 else At(k, from) + Shl(Word(k, from + 1, n - 1), 8)
  }

  lemma {:induction false} WordBound(k: Name, from: nat, n: nat)
    ensures Word(k, from, n) < Pow2(8 * n)
    decreases n
  {
    hide Pow2, Shl;
    if n == 0 {
      assert Pow2(0) > 0;
    } else {
      WordBound(k, from + 1, n - 1);
      var rest := Word(k, from + 1, n - 1);
      ShlMono(rest, Pow2(8 * (n - 1)), 8);
      ShlPow2(8 * (n - 1), 8);
      assert 8 * (n - 1) + 8 == 8 * n;
      Pow2Of8();
    }
  }

  /** Equal words are made of equal bytes. */
  lemma {:induction false} WordInjective(k: Name, l: Name, from: nat, n: nat, i: nat)
    requires Word(k, from, n) == Word(l, from, n) && i < n
    ensures At(k, from + i) == At(l, from + i)
    decreases n
  {
    hide Pow2, Shl, Shr, Low, At;
    Pow2Of8();
    Join(Word(k, from + 1, n - 1), At(k, from), 8);
    Join(Word(l, from + 1, n - 1), At(l, from), 8);
    if i > 0 {
      WordInjective(k, l, from + 1, n - 1, i - 1);
    }
  }

  function Word64(k: Name, from: nat): U64 {
    WordBound(k, from, 8); Pow2Of64();
    Word(k, from, 8)
  }

  /** The last bytes of c: its lowest byte is kept for the length. */
  function HighWord(k: Name, from: nat): U64 {
    WordBound(k, from, 7); Pow2Of64(); ShlMono(Word(k, from, 7), Pow2(56), 8); ShlPow2(56, 8);
    Shl(Word(k, from, 7), 8)
  }

  // ---------------------------------------------------------------- lookup8

  const GOLDEN: U64 := 0x9e3779b97f4a7c13

  function Start(level: U64): Mixer { Mixer(level, level, GOLDEN) }

  /** One 24-byte block. */
  function Absorb(k: Name, m: Mixer): Mixer {
    Mix64(Mixer(Add(m.a, Word64(k, 0)), Add(m.b, Word64(k, 8)), Add(m.c, Word64(k, 16))))
  }

  function Blocks(k: Name, m: Mixer): (Mixer, Name)
    decreases |k|
  {
    if |k| < 24 then (m, k) else Blocks(k[24..], Absorb(k, m))
  }

  /** The last 23 bytes and the length of the whole key, before the final mix. */
  function Finish(k: Name, length: nat, m: Mixer): Mixer {
    Mixer(Add(m.a, Word64(k, 0)), Add(m.b, Word64(k, 8)), Add(Add(m.c, length % M64), HighWord(k, 16)))
  }

  function FinalState(k: Name, level: U64): Mixer {
    var (m, rest) := Blocks(k, Start(level));
    Mix64(Finish(rest, |k|, m))
  }

  function Hash(k: Name, level: U64): U64 { FinalState(k, level).c }

  /** `lookup8`. */
  method Lookup8(key: Name, level: U64) returns (h: U64)
    ensures h == Hash(key, level)
  {
    hide Mix64, Word64, HighWord, Add;
    var k := key;
    var m := Mixer(level, level, GOLDEN);
    while |k| >= 24
      invariant Blocks(key, Start(level)) == Blocks(k, m)
    {
      m := Mixer(Add(m.a, Word64(k, 0)), Add(m.b, Word64(k, 8)), Add(m.c, Word64(k, 16)));
      m := Mix64(m);
      k := k[24..];
    }
    m := m.(c := Add(m.c, |key| % M64));
    m := Mixer(Add(m.a, Word64(k, 0)), Add(m.b, Word64(k, 8)), Add(m.c, HighWord(k, 16)));
    m := Mix64(m);
    h := m.c;
  }

  lemma AddCancel(x: U64, y: U64, z: U64)
    requires Add(z, x) == Add(z, y)
    ensures x == y
  {
  }

  /** length + (w << 8), added to c, determines the length, if it is known up to 255, and w. */
  lemma LengthByte(c: U64, n: nat, m: nat, v: U64, w: U64, x: nat, y: nat)
    requires n < m + 256 && m < n + 256 && v == Shl(x, 8) && w == Shl(y, 8)
    requires Add(Add(c, n % M64), v) == Add(Add(c, m % M64), w)
    ensures n == m && v == w
  {
    hide Shl, Add;
    var i := SumWrap(c, n, v);
    var j := SumWrap(c, m, w);
    Multiple256(v, x);
    Multiple256(w, y);
    assert 256 * x + n + M64 * j == 256 * y + m + M64 * i;
  }

  lemma SumWrap(c: U64, n: nat, v: U64) returns (i: nat)
    ensures Add(Add(c, n % M64), v) + M64 * i == c + n + v
  {
    var r := n % M64;
    i := n / M64 + (if c + r < M64 then 0 else 1) + if Add(c, r) + v < M64 then 0 else 1;
  }

  lemma Multiple256(v: nat, x: nat)
    requires v == Shl(x, 8)
    ensures v == 256 * x
  {
    assert Shl(x, 1) == 2 * x;
    assert Shl(x, 2) == 4 * x;
    assert Shl(x, 4) == 16 * x;
    assert Shl(x, 6) == 64 * x;
  }

  /** The last 23 bytes and the length can be read off the state before the final mix. */
  lemma FinishInjective(k: Name, l: Name, n: nat, m: Mixer)
    requires |k| <= 23 && |l| <= 23 && Finish(k, n + |k|, m) == Finish(l, n + |l|, m)
    ensures k == l
  {
    hide Add, Word, Shl;
    AddCancel(Word64(k, 0), Word64(l, 0), m.a);
    AddCancel(Word64(k, 8), Word64(l, 8), m.b);
    LengthByte(m.c, n + |k|, n + |l|, HighWord(k, 16), HighWord(l, 16), Word(k, 16, 7), Word(l, 16, 7));
    ShlInjective(Word(k, 16, 7), Word(l, 16, 7), 8);
    forall i | 0 <= i < |k| ensures k[i] == l[i] {
      if i < 8 { WordInjective(k, l, 0, 8, i); }
      else if i < 16 { WordInjective(k, l, 8, 8, i - 8); }
      else { WordInjective(k, l, 16, 7, i - 16); }
    }
  }

  lemma Mix64Injective(p: Mixer, q: Mixer)
    requires Mix64(p) == Mix64(q)
    ensures p == q
  {
    hide Mix64, Unmix64;
    Mix64Bijective(p);
    Mix64Bijective(q);
  }

  /** Whole blocks at the front are absorbed first. */
  lemma {:induction false} BlocksPrefix(p: Name, k: Name, m: Mixer)
    requires |p| % 24 == 0
    ensures Blocks(p + k, m) == Blocks(k, Blocks(p, m).0)
    decreases |p|
  {
    hide Absorb;
    if |p| == 0 {
      assert p + k == k;
    } else {
      assert (p + k)[24..] == p[24..] + k;
      AbsorbFront(p, p + k, m);
      BlocksPrefix(p[24..], k, Absorb(p, m));
    }
  }

  /** A block is made of the first 24 bytes. */
  lemma AbsorbFront(k: Name, l: Name, m: Mixer)
    requires |k| >= 24 && |l| >= 24 && k[..24] == l[..24]
    ensures Absorb(k, m) == Absorb(l, m)
  {
    hide Mix64, Add, Word;
    assert forall i :: 0 <= i < 24 ==> k[i] == k[..24][i] == l[i];
    WordAgrees(k, l, 0, 8);
    WordAgrees(k, l, 8, 8);
    WordAgrees(k, l, 16, 8);
  }

  lemma {:induction false} WordAgrees(k: Name, l: Name, from: nat, n: nat)
    requires forall i :: from <= i < from + n ==> At(k, i) == At(l, i)
    ensures Word(k, from, n) == Word(l, from, n)
    decreases n
  {
    if n > 0 { WordAgrees(k, l, from + 1, n - 1); }
  }

  /** A block can be read off the state it leads to, and so can the state it started from. */
  lemma AbsorbInjective(k: Name, l: Name, m: Mixer)
    requires |k| == |l| == 24 && Absorb(k, m) == Absorb(l, m)
    ensures k == l
  {
    hide Mix64, Add, Word;
    Mix64Injective(Mixer(Add(m.a, Word64(k, 0)), Add(m.b, Word64(k, 8)), Add(m.c, Word64(k, 16))),
                   Mixer(Add(m.a, Word64(l, 0)), Add(m.b, Word64(l, 8)), Add(m.c, Word64(l, 16))));
    AddCancel(Word64(k, 0), Word64(l, 0), m.a);
    AddCancel(Word64(k, 8), Word64(l, 8), m.b);
    AddCancel(Word64(k, 16), Word64(l, 16), m.c);
    forall i | 0 <= i < 24 ensures k[i] == l[i] {
      if i < 8 { WordInjective(k, l, 0, 8, i); }
      else if i < 16 { WordInjective(k, l, 8, 8, i - 8); }
      else { WordInjective(k, l, 16, 8, i - 16); }
    }
  }

  lemma AddCommutes(x: U64, y: U64)
    ensures Add(x, y) == Add(y, x)
  {
  }

  lemma AddCancelLeft(x: U64, y: U64, z: U64)
    requires Add(x, z) == Add(y, z)
    ensures x == y
  {
    hide Add;
    AddCommutes(x, z);
    AddCommutes(y, z);
    AddCancel(x, y, z);
  }

  lemma {:induction false} BlocksInjective(k: Name, m: Mixer, n: Mixer)
    requires Blocks(k, m) == Blocks(k, n)
    ensures m == n
    decreases |k|
  {
    hide Mix64, Add, Word64;
    if |k| >= 24 {
      BlocksInjective(k[24..], Absorb(k, m), Absorb(k, n));
      Mix64Injective(Mixer(Add(m.a, Word64(k, 0)), Add(m.b, Word64(k, 8)), Add(m.c, Word64(k, 16))),
                     Mixer(Add(n.a, Word64(k, 0)), Add(n.b, Word64(k, 8)), Add(n.c, Word64(k, 16))));
      AddCancelLeft(m.a, n.a, Word64(k, 0));
      AddCancelLeft(m.b, n.b, Word64(k, 8));
      AddCancelLeft(m.c, n.c, Word64(k, 16));
    }
  }

  lemma {:induction false} BlocksRest(k: Name, m: Mixer, n: Mixer)
    ensures Blocks(k, m).1 == Blocks(k, n).1 && |Blocks(k, m).1| <= 23
    decreases |k|
  {
    hide Absorb;
    if |k| >= 24 { BlocksRest(k[24..], Absorb(k, m), Absorb(k, n)); }
  }

  lemma FinishKeepsState(k: Name, length: nat, m: Mixer, n: Mixer)
    requires Finish(k, length, m) == Finish(k, length, n)
    ensures m == n
  {
    hide Add, Word64, HighWord;
    AddCancelLeft(m.a, n.a, Word64(k, 0));
    AddCancelLeft(m.b, n.b, Word64(k, 8));
    AddCancelLeft(Add(m.c, length % M64), Add(n.c, length % M64), HighWord(k, 16));
    AddCancelLeft(m.c, n.c, length % M64);
  }

  /** Every block counts: two keys that differ in one 24-byte block only, wherever it is and whatever
      follows, end in different states. */
  lemma BlocksSeparate(p: Name, x: Name, y: Name, rest: Name, level: U64)
    requires |p| % 24 == 0 && |x| == |y| == 24
    requires FinalState(p + (x + rest), level) == FinalState(p + (y + rest), level)
    ensures x == y
  {
    hide Mix64, Blocks, Finish, Absorb;
    var m := Blocks(p, Start(level)).0;
    BlocksPrefix(p, x + rest, Start(level));
    BlocksPrefix(p, y + rest, Start(level));
    BlocksPrefix(x, rest, m);
    BlocksPrefix(y, rest, m);
    OneBlock(x, m);
    OneBlock(y, m);
    var u, v := Blocks(rest, Absorb(x, m)), Blocks(rest, Absorb(y, m));
    BlocksRest(rest, Absorb(x, m), Absorb(y, m));
    var n := |p| + 24 + |rest|;
    assert |p + (x + rest)| == |p + (y + rest)| == n;
    Mix64Injective(Finish(u.1, n, u.0), Finish(v.1, n, v.0));
    FinishKeepsState(u.1, n, u.0, v.0);
    BlocksInjective(rest, Absorb(x, m), Absorb(y, m));
    AbsorbInjective(x, y, m);
  }

  lemma OneBlock(x: Name, m: Mixer)
    requires |x| == 24
    ensures Blocks(x, m) == (Absorb(x, m), [])
  {
    hide Absorb;
    assert x[24..] == [];
  }

  /** So do the last bytes: two keys with the same whole blocks in front and different ends of at
      most 23 bytes, even of different lengths, end in different states. */
  lemma TailsSeparate(p: Name, k: Name, l: Name, level: U64)
    requires |p| % 24 == 0 && |k| <= 23 && |l| <= 23 && FinalState(p + k, level) == FinalState(p + l, level)
    ensures k == l
  {
    hide Mix64, Finish, Absorb;
    var m := Blocks(p, Start(level)).0;
    BlocksPrefix(p, k, Start(level));
    BlocksPrefix(p, l, Start(level));
    Mix64Injective(Finish(k, |p| + |k|, m), Finish(l, |p| + |l|, m));
    FinishInjective(k, l, |p|, m);
  }

  /** Distinct keys of at most 23 bytes, even of different lengths, end in different states. */
  lemma ShortKeysSeparate(k: Name, l: Name, level: U64)
    requires |k| <= 23 && |l| <= 23 && FinalState(k, level) == FinalState(l, level)
    ensures k == l
  {
    hide FinalState;
    assert [] + k == k && [] + l == l;
    TailsSeparate([], k, l, level);
  }

  lemma ShlInjective(x: nat, y: nat, k: nat)
    requires Shl(x, k) == Shl(y, k)
    ensures x == y
  {
    Join(x, 0, k);
    Join(y, 0, k);
  }
}
