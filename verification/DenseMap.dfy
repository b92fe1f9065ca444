/** `DenseMap`: the open-addressed hash table of llvm-DenseMap.h. */
module DenseMaps {
  import opened Bits
  import opened NextPowerOf2
  import opened Probing
  import opened DenseTable

  const MIN_BUCKETS: nat := 4
  const MIN_COMPACT: nat := 1024

  /** NumBuckets is a 32-bit power of two. */
  const LARGEST: nat := 0x8000_0000

  /** The largest table that can be doubled: see GrowDoublesIff. */
  const MAX_BUCKETS: nat := 0x4000_0000

  /** From here on a reservation needs more than MAX_BUCKETS: see MinBucketsSize. */
  const MAX_RESERVE: nat := 0x3000_0000

  /** From here on a reservation wraps around: see ReserveHoldsIff. */
  const WRAPS: nat := 0x4000_0000

  /** The most entries that shrink_and_clear can size a table by: beyond, twice the next power of
      two is WRAPS or more. */
  const MAX_SHRINK: nat := 0x1000_0000

  function U32(x: int): nat { x % 0x1_0000_0000 }

  lemma U32Small(x: nat)
    requires x < 0x1_0000_0000
    ensures U32(x) == x
  {
  }

  /** At LARGEST buckets the load test wraps around; when it does not ask for more buckets, the load
      is below the limit all the same. */
  lemma LoadTestWrapped(n: nat, newNumEntries: nat)
    requires n == LARGEST && 4 * (newNumEntries - 1) < 3 * n && U32(newNumEntries * 4) < U32(n * 3)
    ensures 4 * newNumEntries < 3 * n
  {
  }

  function Max(x: nat, y: nat): nat { if x < y then y else x }

  /** How many buckets `grow(atLeast)` allocates. */
  function GrowSize(atLeast: nat): nat { Max(MIN_BUCKETS, NextPow2(U32(atLeast - 1))) }

  /** The size of the table to which an insertion of a new key first rehashes, or zero if it does not:
      twice the size when the load would reach 3/4, the same size when at most 1/8 of the buckets
      would be left empty. */
  function RoomSize(n: nat, entries: nat, tombstones: nat): nat {
    if U32((entries + 1) * 4) >= U32(n * 3) then GrowSize(U32(n * 2))
    else if n - (entries + 1 + tombstones) <= n / 8 then n
    else 0
  }

  /** Below the load limit a table without tombstones has room. */
  lemma RoomUnneeded(n: nat, entries: nat)
    requires n <= MAX_BUCKETS && 4 * (entries + 1) < 3 * n
    ensures RoomSize(n, entries, 0) == 0
  {
    hide GrowSize, U32;
    U32Small((entries + 1) * 4);
    U32Small(n * 3);
  }

  /** Below MAX_RESERVE entries an insertion stays within MAX_BUCKETS. */
  lemma RoomWithin(n: nat, entries: nat, tombstones: nat)
    requires n == 0 || (IsPow2(n) && MIN_BUCKETS <= n <= MAX_BUCKETS)
    requires entries + 1 < MAX_RESERVE
    ensures RoomSize(n, entries, tombstones) <= MAX_BUCKETS
  {
    hide GrowSize, U32, IsPow2;
    U32Small((entries + 1) * 4);
    U32Small(n * 3);
    if n == 0 {
      GrowFromNothing();
    } else if n < MAX_BUCKETS {
      GrowDoublesIff(n);
      DoubleFits(n);
    }
  }

  /** A power of two below the limit can be doubled. */
  lemma DoubleFits(n: nat)
    requires IsPow2(n) && n < MAX_BUCKETS
    ensures 2 * n <= MAX_BUCKETS
  {
    hide Pow2;
    Pow2Of30();
    if 30 <= Log2(n) {
      Pow2Mono(30, Log2(n));
    } else {
      Pow2Mono(Log2(n), 30);
    }
  }

  /** `compact` rehashes a table that is more than 15/16 empty. */
  predicate Sparse(n: nat, entries: nat) { entries > 0 && n / 16 > entries && n > MIN_COMPACT }

  /** The size that `shrink_and_clear` asks for. */
  function ShrunkTo(entries: nat): nat {
    if entries == 0 then 0 else Max(MIN_BUCKETS, Pow2(BitLen(entries - 1) + 1))
  }

  /** `getMinBucketToReserveForEntries`. */
  function MinBuckets(entries: nat): nat {
    if entries == 0 then 0 else NextPow2(U32(U32(entries * 4) / 3 + 1))
  }

  /** `ValueInfoT::isPurgeable`: either nothing is purgeable, or exactly the zero value. */
  predicate Purgeable<V(==)>(purges: bool, zero: V, v: V) { purges && v == zero }

  /** The entries that a rehash carries over. */
  ghost function Kept<K, V>(purges: bool, zero: V, m: map<K, V>): map<K, V> {
    map x | x in m && !Purgeable(purges, zero, m[x]) :: m[x]
  }

  /** `m'` is `m` without some of its purgeable entries. */
  ghost predicate Trims<K, V>(purges: bool, zero: V, m: map<K, V>, m': map<K, V>) {
    && (forall x :: x in m' ==> x in m && m'[x] == m[x])
    && (forall x :: x in m && x !in m' ==> Purgeable(purges, zero, m[x]))
  }

  ghost function Get<K, V>(zero: V, m: map<K, V>, x: K): V { if x in m then m[x] else zero }

  /** What `try_emplace` does to the map. */
  ghost predicate Inserts<K, V>(purges: bool, zero: V, key: K, value: V, m: map<K, V>, m': map<K, V>, inserted: bool) {
    && (inserted <==> key !in m)
    && (if inserted then key in m' && m'[key] == value && Trims(purges, zero, m, m' - {key}) else m' == m)
  }

  /** What `map[key] = value` does to the map. */
  ghost predicate Puts<K, V>(purges: bool, zero: V, key: K, value: V, m: map<K, V>, m': map<K, V>) {
    key in m' && m'[key] == value && Trims(purges, zero, m - {key}, m' - {key})
  }

  /** What `erase` does to the map. */
  ghost predicate Erases<K, V>(purges: bool, zero: V, key: K, m: map<K, V>, m': map<K, V>, erased: bool) {
    && (erased <==> key in m)
    && (if erased then Trims(purges, zero, m - {key}, m') else m' == m)
  }

  /** A bucket that holds an entry which must be kept. */
  predicate Busy<K, V(==)>(purges: bool, zero: V, bucket: Bucket<K, V>) {
    bucket.Live? && !Purgeable(purges, zero, bucket.value)
  }

  /** `pos` is the first bucket on the key's probe path that is empty, a tombstone or purgeable. */
  ghost predicate FirstReusable<K, V>(b: seq<Bucket<K, V>>, hash: K -> nat, k: nat, purges: bool, zero: V,
                                      key: K, pos: nat, i: nat)
    requires |b| == Pow2(k)
  {
    && OpenSlot(b, hash, k, key, pos, i)
    && !Busy(purges, zero, b[pos])
    && forall j: nat :: j < i ==> Busy(purges, zero, b[Slot(hash(key), j, k)])
  }

  /** A probe that saw no empty bucket has not seen all buckets. */
  lemma ProbeNotExhausted<K, V>(b: seq<Bucket<K, V>>, h: nat, k: nat, i: nat)
    requires |b| == Pow2(k) && Empty in b && i < |b|
    requires forall j: nat :: j <= i ==> b[Slot(h, j, k)] != Empty
    ensures i + 1 < |b|
  {
    hide Slot, Pow2;
    var p :| 0 <= p < |b| && b[p] == Empty;
    var j := SlotsCover(h, p, k);
    assert !(j <= i);
  }

  lemma MinBucketsSize(entries: nat)
    requires entries < WRAPS
    ensures var n := MinBuckets(entries);
            n == 0 <==> entries == 0
    ensures var n := MinBuckets(entries);
            entries > 0 ==> IsPow2(n) && MIN_BUCKETS <= n <= LARGEST && 4 * entries < 3 * n && 3 * n <= 8 * entries + 6
    ensures MinBuckets(entries) <= MAX_BUCKETS <==> entries < MAX_RESERVE
  {
    hide IsPow2, NextPow2;
    if entries > 0 {
      var x := entries * 4 / 3 + 1;
      assert U32(entries * 4) == entries * 4 && U32(x) == x;
      NextPow2Small(x);
    }
  }

  /** A reservation leaves room below the load limit exactly when the 32-bit product in it does not
      wrap around. */
  lemma ReserveHoldsIff(entries: nat)
    requires 0 < entries < 0x1_0000_0000
    ensures 4 * entries < 3 * MinBuckets(entries) <==> entries < WRAPS
  {
    hide IsPow2, NextPow2;
    MinBucketsSize(if entries < WRAPS then entries else 0);
    var y := U32(entries * 4);
    assert y / 3 + 1 < LARGEST && U32(y / 3 + 1) == y / 3 + 1;
    NextPow2Small(y / 3 + 1);
    assert entries >= WRAPS ==> y + 0x1_0000_0000 <= 4 * entries;
  }

  lemma NextPow2Small(x: nat)
    requires x < LARGEST
    ensures var n := NextPow2(x);
            && IsPow2(n) && x < n <= LARGEST
            && (x > 0 ==> n <= 2 * x)
            && (x >= 2 ==> n >= 4)
            && (x < MAX_BUCKETS ==> n <= MAX_BUCKETS)
  {
    hide NextPow2, IsPow2;
    Pow2Of30();
    NextPow2Least(x);
    BitLenAtMost31(x);
    if x < MAX_BUCKETS { BitLenAtMost30(x); }
    if x >= 2 { BitLenTwo(x); }
  }

  lemma BitLenAtMost31(x: nat)
    requires x < Pow2(31)
    ensures Pow2(BitLen(x)) <= Pow2(31)
  {
    BitLenAtMost(x, 31);
    Pow2Mono(BitLen(x), 31);
  }

  lemma BitLenAtMost30(x: nat)
    requires x < Pow2(30)
    ensures Pow2(BitLen(x)) <= Pow2(30)
  {
    BitLenAtMost(x, 30);
    Pow2Mono(BitLen(x), 30);
  }

  lemma BitLenTwo(x: nat)
    requires x >= 2
    ensures Pow2(BitLen(x)) >= 4
  {
    assert BitLen(x) >= 2;
    Pow2Mono(2, BitLen(x));
    assert Pow2(2) == 4;
  }

  lemma CountSnoc<K, V>(b: seq<Bucket<K, V>>, i: nat)
    requires i < |b|
    ensures CountLive(b[..i + 1]) == CountLive(b[..i]) + if b[i].Live? then 1 else 0
    ensures CountLive(b[..i + 1]) <= CountLive(b)
    decreases |b|
  {
    assert b[..i + 1][..i] == b[..i];
    if i + 1 == |b| {
      assert b[..i + 1] == b;
    } else {
      CountSnoc(b[..|b| - 1], i);
      assert b[..|b| - 1][..i + 1] == b[..i + 1];
    }
  }

  lemma FoundIsStored<K, V>(b: seq<Bucket<K, V>>, key: K, pos: nat)
    requires Unique(b) && pos < |b|
    ensures b[pos].Live? && b[pos].key == key ==> key in Contents(b)
  {
  }

  /** Doubling: from nothing to MIN_BUCKETS, else to twice the size, exactly up to MAX_BUCKETS. The
      one larger size, LARGEST, doubles to four buckets. */
  lemma GrowDoublesIff(n: nat)
    requires IsPow2(n) && MIN_BUCKETS <= n <= LARGEST
    ensures GrowSize(U32(n * 2)) == 2 * n <==> n <= MAX_BUCKETS
    ensures n > MAX_BUCKETS ==> n == LARGEST && GrowSize(U32(n * 2)) == MIN_BUCKETS
    ensures n <= MAX_BUCKETS ==> IsPow2(2 * n)
  {
    hide NextPow2, Pow2, BitLen;
    Pow2Of30();
    if n <= MAX_BUCKETS {
      assert U32(n * 2) == 2 * n;
      Pow2Next(Log2(n));
      NextPow2Before(2 * n, Log2(n) + 1);
    } else {
      Pow2Between(Log2(n));
      NextPow2Overflow();
    }
  }

  lemma Pow2Between(k: nat)
    requires Pow2(30) < Pow2(k) <= Pow2(31)
    ensures k == 31
  {
    hide Pow2;
    if k <= 30 {
      Pow2Mono(k, 30);
    } else if k >= 32 {
      Pow2Mono(31, k);
    }
  }

  lemma GrowFromNothing()
    ensures GrowSize(U32(0 * 2)) == MIN_BUCKETS && IsPow2(MIN_BUCKETS)
  {
    hide NextPow2, Pow2, BitLen;
    NextPow2Overflow();
    Pow2IsPow2(2);
    Pow2Two();
  }

  /** Rehashing in place keeps the size. */
  lemma GrowSame(n: nat)
    requires n <= LARGEST && IsPow2(n) && n >= MIN_BUCKETS
    ensures GrowSize(n) == n
  {
    hide NextPow2, Pow2, BitLen;
    NextPow2Before(n, Log2(n));
  }

  /** The size of a reservation, wrapped around or not, is a power of two, and three times it is at
      most 3/4 of the 32-bit range. */
  lemma MinBucketsWraps(entries: nat)
    requires 0 < entries < 0x1_0000_0000
    ensures IsPow2(MinBuckets(entries)) && MinBuckets(entries) <= LARGEST
    ensures U32(MinBuckets(entries) * 3) <= 0xc000_0000
  {
    hide IsPow2, NextPow2, GrowSize;
    var y := U32(entries * 4);
    assert y / 3 + 1 < LARGEST && U32(y / 3 + 1) == y / 3 + 1;
    NextPow2Small(y / 3 + 1);
    if MinBuckets(entries) > MAX_BUCKETS {
      GrowDoublesIff(MinBuckets(entries));
    }
  }

  /** A map built with a reserve takes that many insertions without a single load test asking for
      more buckets, exactly below MAX_RESERVE. */
  lemma ReserveLastsIff(entries: nat)
    requires 0 < entries < 0x1_0000_0000
    ensures (forall n: nat :: 0 < n <= entries ==> U32(n * 4) < U32(MinBuckets(entries) * 3)) <==> entries < MAX_RESERVE
  {
    hide IsPow2, MinBuckets, U32, GrowSize;
    var size := MinBuckets(entries);
    if entries < WRAPS {
      MinBucketsSize(entries);
    }
    forall n: nat | 0 < n < WRAPS ensures U32(n * 4) == n * 4 {
      U32Small(n * 4);
    }
    if entries < MAX_RESERVE {
      U32Small(size * 3);
    } else if entries < WRAPS {
      GrowDoublesIff(size);
      LargestWraps();
      assert !(U32(0x2000_0000 * 4) < U32(size * 3));
    } else {
      MinBucketsWraps(entries);
      assert !(U32(0x3fff_ffff * 4) < U32(size * 3));
    }
  }

  lemma LargestWraps()
    ensures U32(LARGEST * 3) == LARGEST
  {
  }

  lemma Pow2Two()
    ensures Pow2(2) == 4
  {
  }

  /** grow(0) asks for NextPowerOf2(2^32 - 1), which is zero. */
  lemma NextPow2Overflow()
    ensures NextPow2(U32(-1)) == 0
  {
    hide NextPow2;
    Pow2Of30();
    NextPow2Least(U32(-1));
  }

  /** The next power of two after 2^k - 1 is 2^k. */
  lemma NextPow2Before(n: nat, k: nat)
    requires n == Pow2(k) && 4 <= n <= 0x8000_0000
    ensures NextPow2(U32(n - 1)) == n && IsPow2(n)
  {
    hide NextPow2, Pow2, BitLen, IsPow2;
    Pow2Of30();
    NextPow2Least(n - 1);
    BitLenOnes(k);
    Pow2IsPow2(k);
  }

  /** Writing a new key over at most one purgeable entry. */
  lemma TrimsPut<K, V>(purges: bool, zero: V, m: map<K, V>, key: K, value: V, dropped: set<K>)
    requires key !in m && forall x :: x in dropped && x in m ==> Purgeable(purges, zero, m[x])
    ensures Trims(purges, zero, m, (m - dropped)[key := value] - {key})
  {
  }

  /** Changing values but no keys opens no gap. */
  lemma SameKeysNoGap<K, V>(b: seq<Bucket<K, V>>, b': seq<Bucket<K, V>>, hash: K -> nat, k: nat)
    requires |b| == |b'| == Pow2(k) && NoGap(b, hash, k)
    requires forall i :: 0 <= i < |b| ==> (b[i].Empty? <==> b'[i].Empty?) && (b[i].Live? <==> b'[i].Live?)
    requires forall i :: 0 <= i < |b| && b[i].Live? ==> b[i].key == b'[i].key
    ensures NoGap(b', hash, k)
  {
    hide Slot, Pow2;
    forall p, i: nat, j: nat | 0 <= p < |b'| && b'[p].Live? && j < i < |b'| && Slot(hash(b'[p].key), i, k) == p
      ensures b'[Slot(hash(b'[p].key), j, k)] != Empty
    {
      assert b[Slot(hash(b[p].key), j, k)] != Empty;
    }
  }

  lemma NoEntries<K, V>(b: seq<Bucket<K, V>>)
    requires Unique(b) && CountLive(b) == 0
    ensures Contents(b) == map[]
  {
    CountNoLive(b);
  }

  /** The size `shrink_and_clear` asks for. */
  lemma ShrunkSize(entries: nat)
    requires 0 < entries <= MAX_SHRINK
    ensures Pow2(BitLen(entries - 1) + 1) <= MAX_BUCKETS / 2
    ensures IsPow2(Max(MIN_BUCKETS, Pow2(BitLen(entries - 1) + 1)))
  {
    hide Pow2, BitLen;
    Pow2Next(BitLen(entries - 1));
    BitLenSpan(entries - 1);
    Pow2IsPow2(BitLen(entries - 1) + 1);
    Pow2IsPow2(2);
    Pow2Two();
    BitLenSmall(entries - 1);
  }

  /** The size that `shrink_and_clear` asks for leads to a table of at least MIN_BUCKETS exactly up to
      MAX_SHRINK entries; for the next larger numbers it wraps around to a table of two. */
  lemma ShrinkFitsIff(entries: nat)
    requires 0 < entries <= 0x2000_0000
    ensures MIN_BUCKETS <= MinBuckets(Max(MIN_BUCKETS, Pow2(BitLen(entries - 1) + 1))) <==> entries <= MAX_SHRINK
    ensures entries > MAX_SHRINK ==> MinBuckets(Max(MIN_BUCKETS, Pow2(BitLen(entries - 1) + 1))) == 2
  {
    hide Pow2, BitLen, IsPow2, NextPow2, MinBuckets;
    if entries <= MAX_SHRINK {
      ShrunkSize(entries);
      MinBucketsSize(Max(MIN_BUCKETS, Pow2(BitLen(entries - 1) + 1)));
    } else {
      BitLenIs29(entries - 1);
      MinBucketsAtWraps();
    }
  }

  lemma BitLenIs29(x: nat)
    requires MAX_SHRINK <= x < 0x2000_0000
    ensures Pow2(BitLen(x) + 1) == WRAPS
  {
    hide Pow2, BitLen;
    Pow2Of30();
    Pow2Next(28);
    Pow2Next(29);
    BitLenAtMost(x, 29);
    BitLenAtLeast(x, 28);
  }

  lemma MinBucketsAtWraps()
    ensures MinBuckets(WRAPS) == 2
  {
    hide NextPow2, Pow2, BitLen, IsPow2;
    assert U32(WRAPS * 4) == 0 && U32(0 / 3 + 1) == 1;
    NextPow2OfOne();
  }

  lemma NextPow2OfOne()
    ensures NextPow2(1) == 2
  {
    hide NextPow2;
    Pow2Of30();
    NextPow2Least(1);
    assert BitLen(1) == 1 && Pow2(1) == 2;
  }

  lemma BitLenSmall(x: nat)
    requires x < MAX_SHRINK
    ensures Pow2(BitLen(x)) * 4 <= MAX_BUCKETS
  {
    hide Pow2, BitLen;
    Pow2Of30();
    Pow2Next(28);
    Pow2Next(29);
    BitLenAtMost(x, 28);
    Pow2Mono(BitLen(x), 28);
  }

  /** The size `compact` asks for. */
  lemma CompactSize(entries: nat)
    requires 0 < entries && 16 * entries < LARGEST
    ensures var n := GrowSize(U32(entries * 2));
            IsPow2(n) && 4 * entries < 3 * n && n <= Max(MIN_BUCKETS, 4 * entries)
  {
    hide NextPow2, IsPow2, Pow2, BitLen;
    NextPow2Small(2 * entries - 1);
    Pow2IsPow2(2);
    Pow2Two();
  }

  /** A table that `clear` finds too large does not get larger. */
  lemma ClearShrinks(n: nat, entries: nat)
    requires IsPow2(n) && MIN_BUCKETS < n <= LARGEST && 4 * entries < n && entries <= MAX_SHRINK
    ensures MinBuckets(ShrunkTo(entries)) <= n
  {
    hide NextPow2, Pow2, BitLen;
    var k := Log2(n);
    if entries > 0 {
      HalfOfPow2(k);
      var s := ShrunkTo(entries);
      BitLenAtMost(entries - 1, k - 2);
      Pow2Mono(BitLen(entries - 1) + 1, k - 1);
      Pow2Of30();
      ShrunkSize(entries);
      var x := s * 4 / 3 + 1;
      assert U32(s * 4) == s * 4 && U32(x) == x;
      NextPow2Least(x);
      BitLenAtMost(x, k);
      Pow2Mono(BitLen(x), k);
    }
  }

  lemma HalfOfPow2(k: nat)
    requires Pow2(k) > 4
    ensures k > 2 && 2 * Pow2(k - 1) == Pow2(k) && 4 * Pow2(k - 2) == Pow2(k) && Pow2(k) >= 8
  {
    assert k > 2 ==> Pow2(k - 3) > 0;
  }

  /** A table without purgeable entries offers no entry for reuse. */
  lemma KeptOffersNoEntry<K, V>(b: seq<Bucket<K, V>>, hash: K -> nat, k: nat, purges: bool, zero: V, m: map<K, V>,
                                key: K, pos: nat, i: nat)
    requires Unique(b) && |b| == Pow2(k) && Contents(b) == Kept(purges, zero, m)
    requires FirstReusable(b, hash, k, purges, zero, key, pos, i)
    ensures pos < |b| && !b[pos].Live?
  {
    hide Slot, Pow2, NoGap;
    if b[pos].Live? {
      ContentsAt(b, pos);
    }
  }

  lemma KeptTrims<K, V>(purges: bool, zero: V, m: map<K, V>, key: K, value: V)
    requires key !in m
    ensures Trims(purges, zero, m, Kept(purges, zero, m)[key := value] - {key})
  {
  }

  /** A table of empty buckets. */
  lemma FreshTable<K, V>(b: seq<Bucket<K, V>>, hash: K -> nat)
    requires forall i :: 0 <= i < |b| ==> b[i] == Empty
    ensures Unique(b) && Contents(b) == map[] && CountLive(b) == 0 && CountTomb(b) == 0
    ensures IsPow2(|b|) ==> Table(b, hash, Log2(|b|)) && Empty in b
  {
    hide Pow2, BitLen;
    CountAllEmpty(b);
    if IsPow2(|b|) {
      EmptyTable(b, hash, Log2(|b|));
      assert b[0] == Empty;
    }
  }

  class DenseMap<K(==), V(==)> {
    const hash: K -> nat
    const zero: V
    const purges: bool
    var buckets: array<Bucket<K, V>>
    var numEntries: nat
    var numTombstones: nat

    /** `DenseMap(InitialReserve)`. */
    constructor (hash: K -> nat, zero: V, purges: bool, initialReserve: nat)
      requires initialReserve < WRAPS
      ensures Valid() && Model() == map[] && fresh(buckets)
      ensures this.hash == hash && this.zero == zero && this.purges == purges
      ensures buckets.Length == MinBuckets(initialReserve) && numEntries == 0 && numTombstones == 0
      ensures forall i :: 0 <= i < buckets.Length ==> buckets[i] == Empty
    {
      this.hash, this.zero, this.purges := hash, zero, purges;
      var n := MinBuckets(initialReserve);
      buckets := new Bucket<K, V>[n](_ => Empty);
      numEntries, numTombstones := 0, 0;
      new;
      MinBucketsSize(initialReserve);
      FreshTable(buckets[..], hash);
    }

    /** What a lookup needs: a well-formed table with an empty bucket. */
    ghost predicate Searchable()
      reads this, buckets
    {
      && IsPow2(buckets.Length)
      && Table(buckets[..], hash, Log2(buckets.Length))
      && Empty in buckets[..]
    }

    /** The counters agree with the buckets. */
    ghost predicate Counted()
      reads this, buckets
    {
      numEntries == CountLive(buckets[..]) && numTombstones == CountTomb(buckets[..])
    }

    ghost predicate Valid()
      reads this, buckets
    {
      && Counted()
      && (buckets.Length == 0 ==> numEntries == 0 && numTombstones == 0)
      && (buckets.Length == 0 || (Searchable() && MIN_BUCKETS <= buckets.Length && 4 * numEntries < 3 * buckets.Length))
      && buckets.Length <= LARGEST
    }

    /** The table can be doubled, or the load test of an insertion does not ask for that. Otherwise
        grow makes a table of four buckets, by GrowDoublesIff. */
    predicate CanInsert()
      reads this, buckets
    {
      buckets.Length <= MAX_BUCKETS || U32((numEntries + 1) * 4) < U32(buckets.Length * 3)
    }

    /** `clear` does not shrink the table, or shrinks it to a size that does not wrap around. */
    predicate CanClear()
      reads this, buckets
    {
      buckets.Length <= U32(numEntries * 4) || numEntries <= MAX_SHRINK
    }

    ghost function Model(): map<K, V>
      requires Unique(buckets[..])
      reads this, buckets
    {
      Contents(buckets[..])
    }

    method LookupBucketFor(key: K) returns (found: bool, pos: nat, ghost step: nat)
      requires buckets.Length > 0 ==> Searchable()
      ensures buckets.Length == 0 ==> !found
      ensures buckets.Length > 0 ==> pos < buckets.Length
      ensures found ==> buckets[pos].Live? && buckets[pos].key == key
      ensures buckets.Length > 0 && !found ==>
                key !in Model() && Open(key, pos, step)
    {
      hide Slot, Pow2, BitLen, And;
      found, pos, step := false, 0, 0;
      if buckets.Length == 0 { return; }
      ghost var b, k, h := buckets[..], Log2(buckets.Length), hash(key);
      var n := buckets.Length;
      var bucketNo := And(hash(key), n - 1);
      var probeAmt := 1;
      var foundTombstone := -1;
      ghost var tombStep: nat := 0;
      SlotNext(h, 0, k);
      while true
        invariant 1 <= probeAmt <= n
        invariant bucketNo == Slot(h, probeAmt - 1, k)
        invariant forall j: nat :: j < probeAmt - 1 ==> b[Slot(h, j, k)] != Empty
        invariant forall j: nat :: j < probeAmt - 1 ==> !(b[Slot(h, j, k)].Live? && b[Slot(h, j, k)].key == key)
        invariant foundTombstone >= 0 ==>
                    && tombStep < probeAmt - 1 && foundTombstone == Slot(h, tombStep, k)
                    && !Busy(purges, zero, b[foundTombstone])
        invariant forall j: nat :: j < (if foundTombstone >= 0 then tombStep else probeAmt - 1)
                    ==> Busy(purges, zero, b[Slot(h, j, k)])
        decreases n - probeAmt
      {
        var bucket := buckets[bucketNo];
        if bucket.Live? && bucket.key == key {
          return true, bucketNo, probeAmt - 1;
        }
        if bucket.Empty? {
          AbsentAtGap(b, hash, k, key, probeAmt - 1);
          if foundTombstone >= 0 {
            return false, foundTombstone, tombStep;
          }
          return false, bucketNo, probeAmt - 1;
        }
        if bucket.Tombstone? && foundTombstone < 0 {
          foundTombstone, tombStep := bucketNo, probeAmt - 1;
        }
        if bucket.Live? && Purgeable(purges, zero, bucket.value) && foundTombstone < 0 {
          foundTombstone, tombStep := bucketNo, probeAmt - 1;
        }
        // FatalCorruptHashTables would be called here if probeAmt > n.
        ProbeNotExhausted(b, h, k, probeAmt - 1);
        SlotNext(h, probeAmt - 1, k);
        bucketNo := And(bucketNo + probeAmt, n - 1);
        probeAmt := probeAmt + 1;
      }
    }

    /** `moveFromOldBuckets` into a table of empty buckets. */
    method MoveFromOldBuckets(from: seq<Bucket<K, V>>)
      requires IsPow2(buckets.Length) && forall i :: 0 <= i < buckets.Length ==> buckets[i] == Empty
      requires Unique(from) && CountLive(from) < buckets.Length
      requires numEntries == 0 && numTombstones == 0
      modifies this`numEntries, buckets
      ensures Searchable() && Counted() && numTombstones == 0 && numEntries <= CountLive(from)
      ensures Model() == Kept(purges, zero, Contents(from))
    {
      hide Pow2, BitLen, Slot, Contents, CountLive, CountTomb, NoGap;
      ghost var k := Log2(buckets.Length);
      FreshTable(buckets[..], hash);
      assert from[..0] == [];
      FreshTable(from[..0], hash);
      for i := 0 to |from|
        invariant Table(buckets[..], hash, k) && Empty in buckets[..]
        invariant Counted() && numTombstones == 0
        invariant Unique(from[..i]) && numEntries <= CountLive(from[..i])
        invariant Model() == Kept(purges, zero, Contents(from[..i]))
      {
        ContentsSnoc(from, i);
        CountSnoc(from, i);
        if from[i].Live? && !Purgeable(purges, zero, from[i].value) {
          MoveOne(from[i].key, from[i].value, CountLive(from));
        }
        assert from[..i + 1][..i] == from[..i];
      }
      assert from[..|from|] == from;
    }

    /** One iteration of `moveFromOldBuckets`: the key is new, and no tombstone is in the way. */
    method MoveOne(key: K, value: V, ghost room: nat)
      requires Searchable() && Counted() && numTombstones == 0
      requires numEntries < room < buckets.Length
      requires key !in Model() && !Purgeable(purges, zero, value)
      requires forall x :: x in Model() ==> !Purgeable(purges, zero, Model()[x])
      modifies this`numEntries, buckets
      ensures Searchable() && Counted()
      ensures numEntries == old(numEntries) + 1
      ensures Model() == old(Model())[key := value]
    {
      hide Pow2, BitLen, Slot, CountLive, CountTomb, NoGap;
      ghost var b := buckets[..];
      var found, pos, step := LookupBucketFor(key);
      CountEmpty(b);
      if b[pos].Live? { ContentsAt(b, pos); }
      PutTable(b, hash, Log2(buckets.Length), key, value, pos, step);
      buckets[pos] := Live(key, value);
      assert buckets[..] == b[pos := Live(key, value)];
      numEntries := numEntries + 1;
      CountEmpty(buckets[..]);
    }

    /** `grow`: reallocates, drops the tombstones and the purgeable entries. */
    method Grow(atLeast: nat)
      requires Valid() && IsPow2(GrowSize(atLeast)) && 4 * numEntries < 3 * GrowSize(atLeast)
      requires GrowSize(atLeast) <= LARGEST
      modifies this
      ensures Valid() && fresh(buckets) && buckets.Length == GrowSize(atLeast)
      ensures numTombstones == 0 && numEntries <= old(numEntries)
      ensures Model() == Kept(purges, zero, old(Model()))
    {
      hide Pow2, BitLen, IsPow2, Slot, Contents, CountLive, CountTomb, NoGap, NextPow2;
      ghost var b := buckets[..];
      var oldBuckets := buckets;
      var n := Max(MIN_BUCKETS, NextPow2(U32(atLeast - 1)));
      buckets := new Bucket<K, V>[n](_ => Empty);
      numEntries, numTombstones := 0, 0;
      if oldBuckets.Length == 0 {
        FreshTable(buckets[..], hash);
        FreshTable(b, hash);
        return;
      }
      MoveFromOldBuckets(oldBuckets[..]);
    }

    /** Where a key that is not stored is written: the first reusable bucket on its path. */
    ghost predicate Open(key: K, pos: nat, step: nat)
      requires IsPow2(buckets.Length)
      reads this, buckets
    {
      FirstReusable(buckets[..], hash, Log2(buckets.Length), purges, zero, key, pos, step)
    }

    /** One bucket changes: the first reusable one on the key's path. */
    ghost predicate Writes(b: seq<Bucket<K, V>>, b': seq<Bucket<K, V>>, key: K, value: V, pos: nat, step: nat) {
      && IsPow2(|b|) && pos < |b|
      && FirstReusable(b, hash, Log2(|b|), purges, zero, key, pos, step)
      && b' == b[pos := Live(key, value)]
    }

    /** Rehashes and looks for the key's bucket again. */
    method Regrow(key: K, atLeast: nat) returns (pos: nat, ghost step: nat)
      requires Valid() && key !in Model() && IsPow2(GrowSize(atLeast)) && 4 * numEntries < 3 * GrowSize(atLeast)
      requires GrowSize(atLeast) <= LARGEST
      modifies this
      ensures Valid() && fresh(buckets) && buckets.Length == GrowSize(atLeast)
      ensures numTombstones == 0 && numEntries <= old(numEntries)
      ensures Model() == Kept(purges, zero, old(Model())) && key !in Model()
      ensures Open(key, pos, step)
    {
      hide Pow2, BitLen, IsPow2, Slot, Contents, CountLive, CountTomb, NoGap, NextPow2;
      Grow(atLeast);
      var found;
      found, pos, step := LookupBucketFor(key);
      FoundIsStored(buckets[..], key, pos);
    }

    /** How an insertion of a new key makes room: by the size of `RoomSize`. */
    ghost function Room(): nat
      reads this, buckets
    {
      RoomSize(buckets.Length, numEntries, numTombstones)
    }

    /** The first half of `InsertIntoBucketImpl`: grow when the load would reach 3/4, rehash in
        place when fewer than 1/8 of the buckets would be empty, else leave the table alone. */
    method MakeRoom(key: K, at: nat, ghost atStep: nat) returns (pos: nat, ghost step: nat)
      requires Valid() && CanInsert() && key !in Model()
      requires buckets.Length > 0 ==> Open(key, at, atStep)
      modifies this
      ensures Valid() && key !in Model()
      ensures if old(Room()) == 0
              then buckets == old(buckets) && numEntries == old(numEntries) && numTombstones == old(numTombstones)
              else && fresh(buckets) && buckets.Length == old(Room())
                   && numEntries <= old(numEntries) && numTombstones == 0
                   && Model() == Kept(purges, zero, old(Model()))
      ensures 4 * (numEntries + 1) < 3 * buckets.Length && numEntries + 1 + numTombstones < buckets.Length
      ensures Open(key, pos, step)
    {
      hide Pow2, BitLen, IsPow2, Slot, Contents, CountLive, CountTomb, NoGap, NextPow2, FirstReusable, GrowSize, U32;
      pos, step := at, atStep;
      var newNumEntries, n := numEntries + 1, buckets.Length;
      if n > 0 { CountEmpty(buckets[..]); }
      if n <= MAX_BUCKETS {
        U32Small(newNumEntries * 4);
        U32Small(n * 3);
      } else {
        GrowDoublesIff(n);
        LoadTestWrapped(n, newNumEntries);
      }
      if U32(newNumEntries * 4) >= U32(n * 3) {
        if n > 0 { GrowDoublesIff(n); } else { GrowFromNothing(); }
        pos, step := Regrow(key, U32(n * 2));
      } else if n - (newNumEntries + numTombstones) <= n / 8 {
        GrowSame(n);
        pos, step := Regrow(key, n);
      }
    }

    /** `InsertIntoBucket`. */
    method InsertIntoBucket(key: K, value: V, at: nat, ghost atStep: nat) returns (pos: nat, ghost step: nat)
      requires Valid() && CanInsert() && key !in Model()
      requires buckets.Length > 0 ==> Open(key, at, atStep)
      modifies this, buckets
      ensures Valid() && pos < buckets.Length && buckets[pos] == Live(key, value)
      ensures if old(Room()) == 0
              then buckets == old(buckets) && Writes(old(buckets[..]), buckets[..], key, value, pos, step)
              else && fresh(buckets) && buckets.Length == old(Room())
                   && Model() == Kept(purges, zero, old(Model()))[key := value]
      ensures numEntries <= old(numEntries) + 1 && numTombstones <= old(numTombstones)
      ensures Trims(purges, zero, old(Model()), Model() - {key})
    {
      hide Pow2, BitLen, Slot, Contents, CountLive, CountTomb, NoGap, OpenSlot, FirstReusable, Busy, RoomSize;
      ghost var m, room := Model(), Room();
      pos, step := MakeRoom(key, at, atStep);
      if room != 0 {
        KeptOffersNoEntry(buckets[..], hash, Log2(buckets.Length), purges, zero, m, key, pos, step);
        KeptTrims(purges, zero, m, key, value);
      }
      Occupy(key, value, pos, step);
    }

    /** The end of `InsertIntoBucketImpl` and the store that follows it. */
    method Occupy(key: K, value: V, pos: nat, ghost step: nat)
      requires Searchable() && Counted() && MIN_BUCKETS <= buckets.Length <= LARGEST && key !in Model()
      requires 4 * (numEntries + 1) < 3 * buckets.Length && numEntries + 1 + numTombstones < buckets.Length
      requires Open(key, pos, step)
      modifies this`numEntries, this`numTombstones, buckets
      ensures Valid() && pos < buckets.Length && buckets[..] == old(buckets[..])[pos := Live(key, value)]
      ensures !old(buckets[pos]).Live? ==> Model() == old(Model())[key := value]
      ensures Trims(purges, zero, old(Model()), Model() - {key})
      ensures numEntries <= old(numEntries) + 1 && numTombstones <= old(numTombstones)
    {
      hide Pow2, BitLen, IsPow2, Slot, CountLive, CountTomb, NoGap, Contents, Trims;
      ghost var b := buckets[..];
      PutTable(b, hash, Log2(buckets.Length), key, value, pos, step);
      if b[pos].Live? { ContentsAt(b, pos); }
      TrimsPut(purges, zero, Model(), key, value, if b[pos].Live? then {b[pos].key} else {});
      assert b[pos].Live? || Model() - {} == Model();
      if buckets[pos].Empty? {
        numEntries := numEntries + 1;
      } else if buckets[pos].Tombstone? {
        numEntries := numEntries + 1;
        numTombstones := numTombstones - 1;
      }
      buckets[pos] := Live(key, value);
      assert buckets[..] == b[pos := Live(key, value)];
      CountEmpty(buckets[..]);
    }

    /** What an insertion of a new key does, exactly: with a rehash only the purgeable entries go;
        without one a single bucket changes, the first reusable one on the key's path. */
    ghost predicate Stores(room: nat, before: array<Bucket<K, V>>, b: seq<Bucket<K, V>>, m: map<K, V>, key: K, value: V,
                           at: nat, step: nat)
      requires Unique(buckets[..])
      reads this, buckets
    {
      if room == 0 then buckets == before && Writes(b, buckets[..], key, value, at, step)
      else buckets.Length == room && Model() == Kept(purges, zero, m)[key := value]
    }

    /** `try_emplace` and `insert`: stores the pair unless the key is already stored. */
    method TryEmplace(key: K, value: V) returns (inserted: bool, ghost at: nat, ghost step: nat)
      requires Valid() && (key in Model() || CanInsert())
      modifies this, buckets
      ensures Valid() && (buckets == old(buckets) || fresh(buckets))
      ensures inserted <==> key !in old(Model())
      ensures inserted ==> Stores(old(Room()), old(buckets), old(buckets[..]), old(Model()), key, value, at, step)
      ensures !inserted ==> buckets == old(buckets) && buckets[..] == old(buckets[..]) && numEntries == old(numEntries)
      ensures Inserts(purges, zero, key, value, old(Model()), Model(), inserted)
      ensures numEntries <= old(numEntries) + 1 && numTombstones <= old(numTombstones)
    {
      hide Pow2, BitLen, IsPow2, Slot, Contents, CountLive, CountTomb, NoGap, OpenSlot, RoomSize, FirstReusable;
      var found, pos;
      found, pos, step := LookupBucketFor(key);
      at := pos;
      if found {
        FoundIsStored(buckets[..], key, pos);
        inserted := false;
        return;
      }
      if buckets.Length == 0 { FreshTable(buckets[..], hash); }
      pos, step := InsertIntoBucket(key, value, pos, step);
      at := pos;
      ContentsAt(buckets[..], pos);
      inserted := true;
    }

    /** `map[key] = value`: FindAndConstruct, then assignment through the reference. */
    method Put(key: K, value: V) returns (ghost at: nat, ghost step: nat)
      requires Valid() && (key in Model() || CanInsert())
      modifies this, buckets
      ensures Valid() && (buckets == old(buckets) || fresh(buckets))
      ensures key !in old(Model()) ==>
                Stores(old(Room()), old(buckets), old(buckets[..]), old(Model()), key, value, at, step)
      ensures key in old(Model()) ==>
                && buckets == old(buckets) && numEntries == old(numEntries) && Model() == old(Model())[key := value]
      ensures Puts(purges, zero, key, value, old(Model()), Model())
      ensures numEntries <= old(numEntries) + 1 && numTombstones <= old(numTombstones)
    {
      hide Pow2, BitLen, IsPow2, Slot, Contents, CountLive, CountTomb, NoGap, OpenSlot, RoomSize, FirstReusable;
      ghost var m := Model();
      var found, pos;
      found, pos, step := LookupBucketFor(key);
      if found {
        FoundIsStored(buckets[..], key, pos);
      } else {
        if buckets.Length == 0 { FreshTable(buckets[..], hash); }
        pos, step := InsertIntoBucket(key, zero, pos, step);
      }
      Assign(key, value, pos);
      at := pos;
      assert Kept(purges, zero, m)[key := zero][key := value] == Kept(purges, zero, m)[key := value];
    }

    /** Assigns the value of a stored key. */
    method Assign(key: K, value: V, pos: nat)
      requires Valid() && pos < buckets.Length && buckets[pos].Live? && buckets[pos].key == key
      modifies buckets
      ensures Valid() && Model() == old(Model())[key := value]
      ensures buckets[..] == old(buckets[..])[pos := Live(key, value)]
    {
      hide Pow2, BitLen, IsPow2, Slot, Contents, CountLive, CountTomb;
      ghost var b := buckets[..];
      ContentsAt(b, pos);
      PutContents(b, key, value, pos);
      CountUpdate(b, pos, Live(key, value));
      CountEmpty(b);
      buckets[pos] := Live(key, value);
      assert buckets[..] == b[pos := Live(key, value)];
      CountEmpty(buckets[..]);
      SameKeysNoGap(b, buckets[..], hash, Log2(buckets.Length));
      assert Contents(b)[key := value] == (Contents(b) - {key})[key := value];
    }

    /** `lookup`: the stored value, or the default value. */
    method Lookup(key: K) returns (value: V)
      requires Valid()
      ensures value == Get(zero, Model(), key)
    {
      hide Pow2, BitLen, IsPow2, Slot, Contents, CountLive, CountTomb, NoGap, OpenSlot;
      var found, pos, step := LookupBucketFor(key);
      if buckets.Length == 0 { FreshTable(buckets[..], hash); }
      if found {
        ContentsAt(buckets[..], pos);
        return buckets[pos].value;
      }
      value := zero;
    }

    /** `count`: is the key stored? */
    method Contains(key: K) returns (stored: bool)
      requires Valid()
      ensures stored <==> key in Model()
    {
      hide Pow2, BitLen, IsPow2, Slot, Contents, CountLive, CountTomb, NoGap, OpenSlot;
      var found, pos, step := LookupBucketFor(key);
      if buckets.Length == 0 { FreshTable(buckets[..], hash); }
      if found { ContentsAt(buckets[..], pos); }
      stored := found;
    }

    /** `init`: a table of empty buckets for the given number of entries, or no table at all. */
    method Init(entries: nat)
      requires entries < WRAPS
      modifies this
      ensures Valid() && fresh(buckets) && buckets.Length == MinBuckets(entries) && Model() == map[]
      ensures numEntries == 0 && numTombstones == 0
    {
      hide IsPow2, CountLive, CountTomb, Contents, Table, NextPow2;
      MinBucketsSize(entries);
      buckets := new Bucket<K, V>[MinBuckets(entries)](_ => Empty);
      numEntries, numTombstones := 0, 0;
      FreshTable(buckets[..], hash);
    }

    /** `initEmpty`. */
    method InitEmpty()
      requires buckets.Length > 0 ==> IsPow2(buckets.Length) && MIN_BUCKETS <= buckets.Length <= LARGEST
      modifies this`numEntries, this`numTombstones, buckets
      ensures Valid() && Model() == map[]
      ensures numEntries == 0 && numTombstones == 0
    {
      hide IsPow2, CountLive, CountTomb, Contents, Table;
      for i := 0 to buckets.Length
        invariant forall j :: 0 <= j < i ==> buckets[j] == Empty
      {
        buckets[i] := Empty;
      }
      numEntries, numTombstones := 0, 0;
      FreshTable(buckets[..], hash);
    }

    /** `shrink_and_clear`: sizes the empty table by the entries it just lost. */
    method ShrinkAndClear()
      requires Valid() && numEntries <= MAX_SHRINK
      modifies this, buckets
      ensures Valid() && Model() == map[] && numEntries == 0 && numTombstones == 0
      ensures if old(buckets.Length) == ShrunkTo(old(numEntries)) then buckets == old(buckets)
              else fresh(buckets) && buckets.Length == MinBuckets(ShrunkTo(old(numEntries)))
      ensures buckets.Length <= Max(MAX_BUCKETS, old(buckets.Length))
    {
      hide IsPow2, CountLive, CountTomb, Contents, Table, NextPow2, Pow2, BitLen;
      var newNumBuckets := 0;
      if numEntries > 0 {
        newNumBuckets := Max(MIN_BUCKETS, Pow2(BitLen(numEntries - 1) + 1));
        ShrunkSize(numEntries);
      }
      if newNumBuckets == buckets.Length {
        InitEmpty();
      } else {
        MinBucketsSize(newNumBuckets);
        Init(newNumBuckets);
      }
    }

    /** `clear`: nothing to do, a smaller table, or the same table emptied. */
    method Clear()
      requires Valid() && CanClear()
      modifies this, buckets
      ensures Valid() && Model() == map[] && numEntries == 0 && numTombstones == 0
      ensures buckets == old(buckets) || fresh(buckets)
      ensures old(numEntries) == 0 && old(numTombstones) == 0 ==> buckets == old(buckets)
      ensures !(U32(old(numEntries) * 4) < old(buckets.Length) && old(buckets.Length) > MIN_BUCKETS) ==>
                buckets == old(buckets)
      ensures (old(numEntries) > 0 || old(numTombstones) > 0)
              && U32(old(numEntries) * 4) < old(buckets.Length) && old(buckets.Length) > MIN_BUCKETS ==>
                buckets.Length == if old(buckets.Length) == ShrunkTo(old(numEntries)) then old(buckets.Length)
                                  else MinBuckets(ShrunkTo(old(numEntries)))
      ensures buckets.Length <= old(buckets.Length)
    {
      hide U32, IsPow2, CountLive, CountTomb, Contents, NoGap, Pow2, BitLen, ShrunkTo, MinBuckets;
      if numEntries == 0 && numTombstones == 0 {
        NoEntries(buckets[..]);
      } else if U32(numEntries * 4) < buckets.Length && buckets.Length > MIN_BUCKETS {
        U32Small(numEntries * 4);
        ClearShrinks(buckets.Length, numEntries);
        ShrinkAndClear();
      } else {
        InitEmpty();
      }
    }

    /** `compact`: frees an empty table, shrinks one that is more than 15/16 empty, leaves any other
        alone. */
    method Compact()
      requires Valid()
      modifies this, buckets
      ensures Valid() && (buckets == old(buckets) || fresh(buckets))
      ensures old(numEntries) == 0 ==> buckets.Length == 0 && numEntries == 0 && Model() == map[]
      ensures Sparse(old(buckets.Length), old(numEntries)) ==>
                && buckets.Length == GrowSize(U32(old(numEntries) * 2)) && numTombstones == 0
                && Model() == Kept(purges, zero, old(Model()))
      ensures old(numEntries) > 0 && !Sparse(old(buckets.Length), old(numEntries)) ==>
                && buckets == old(buckets) && buckets[..] == old(buckets[..])
                && numEntries == old(numEntries) && numTombstones == old(numTombstones)
      ensures buckets != old(buckets) && old(numEntries) > 0 ==> 4 * buckets.Length < old(buckets.Length)
      ensures buckets.Length <= old(buckets.Length)
      ensures Trims(purges, zero, old(Model()), Model()) && numEntries <= old(numEntries)
    {
      hide IsPow2, CountLive, CountTomb, Contents, NoGap, Pow2, BitLen;
      if numEntries == 0 {
        NoEntries(buckets[..]);
        ShrinkAndClear();
        MinBucketsSize(0);
      } else if buckets.Length / 16 > numEntries && buckets.Length > MIN_COMPACT {
        CompactSize(numEntries);
        Grow(U32(numEntries * 2));
      }
    }

    /** `erase`: puts a tombstone in place of the key, then compacts. */
    method Erase(key: K) returns (erased: bool)
      requires Valid()
      modifies this, buckets
      ensures Valid() && (buckets == old(buckets) || fresh(buckets))
      ensures erased <==> key in old(Model())
      ensures !erased ==> buckets == old(buckets) && buckets[..] == old(buckets[..]) && numEntries == old(numEntries)
      ensures erased && old(numEntries) == 1 ==> buckets.Length == 0 && Model() == map[]
      ensures erased && old(numEntries) > 1 && !Sparse(old(buckets.Length), old(numEntries) - 1) ==>
                && buckets == old(buckets) && Model() == old(Model()) - {key}
                && numEntries == old(numEntries) - 1 && numTombstones == old(numTombstones) + 1
      ensures erased && old(numEntries) > 1 && Sparse(old(buckets.Length), old(numEntries) - 1) ==>
                && buckets.Length == GrowSize(U32((old(numEntries) - 1) * 2))
                && Model() == Kept(purges, zero, old(Model()) - {key})
      ensures buckets.Length <= old(buckets.Length)
      ensures Erases(purges, zero, key, old(Model()), Model(), erased) && numEntries <= old(numEntries)
    {
      hide Pow2, BitLen, IsPow2, Slot, Contents, CountLive, CountTomb, NoGap, OpenSlot, GrowSize, U32, Kept;
      var found, pos, step := LookupBucketFor(key);
      if buckets.Length == 0 { FreshTable(buckets[..], hash); }
      if !found {
        return false;
      }
      ghost var b := buckets[..];
      ContentsAt(b, pos);
      EraseAt(b, hash, Log2(buckets.Length), pos);
      CountUpdate(b, pos, Tombstone);
      CountEmpty(b);
      buckets[pos] := Tombstone;
      numEntries := numEntries - 1;
      numTombstones := numTombstones + 1;
      assert buckets[..] == b[pos := Tombstone];
      CountEmpty(buckets[..]);
      Compact();
      erased := true;
    }

    /** `reserve`: a rehash into a larger table, or nothing. */
    method Reserve(entries: nat)
      requires Valid() && entries < WRAPS
      modifies this
      ensures Valid()
      ensures if MinBuckets(entries) <= old(buckets.Length)
              then buckets == old(buckets) && numEntries == old(numEntries) && numTombstones == old(numTombstones)
              else && fresh(buckets) && buckets.Length == MinBuckets(entries)
                   && Model() == Kept(purges, zero, old(Model()))
      ensures entries < MAX_RESERVE ==> buckets.Length <= Max(MAX_BUCKETS, old(buckets.Length))
      ensures Trims(purges, zero, old(Model()), Model()) && numEntries <= old(numEntries)
      ensures buckets.Length >= MinBuckets(entries) && 4 * entries < 3 * Max(buckets.Length, 1)
    {
      hide IsPow2, CountLive, CountTomb, Contents, Table, Pow2, BitLen, NextPow2;
      var n := MinBuckets(entries);
      MinBucketsSize(entries);
      if n > buckets.Length {
        GrowSame(n);
        Grow(n);
      }
    }
  }
}
