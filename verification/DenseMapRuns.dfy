/** Runs of DenseMap operations against a plain finite map.

    A run is a sequence of operations whose effects are the ones that the methods of DenseMap
    promise.  The plain map performs the same operations and never drops anything. */
module DenseMapRuns {
  import opened Bits
  import opened Pigeonhole
  import opened NextPowerOf2
  import opened Probing
  import opened DenseTable
  import opened DenseMaps

  datatype Op<K, V> =
    | TryEmplaceOp(key: K, value: V)
    | PutOp(key: K, value: V)
    | EraseOp(key: K)
    | LookupOp(key: K)
    | ContainsOp(key: K)
    | ClearOp
    | ReserveOp(entries: nat)
    | CompactOp

  datatype Answer<V> = Flag(yes: bool) | Value(v: V) | Nothing

  /** The promise of each method, in the words of its `ensures`. */
  ghost predicate Does<K, V>(purges: bool, zero: V, op: Op<K, V>, m: map<K, V>, m': map<K, V>, a: Answer<V>) {
    match op
    case TryEmplaceOp(key, value) => a.Flag? && Inserts(purges, zero, key, value, m, m', a.yes)
    case PutOp(key, value) => Puts(purges, zero, key, value, m, m')
    case EraseOp(key) => a.Flag? && Erases(purges, zero, key, m, m', a.yes)
    case LookupOp(key) => m' == m && a == Value(Get(zero, m, key))
    case ContainsOp(key) => m' == m && a == Flag(key in m)
    case ClearOp => m' == map[]
    case ReserveOp(_) => Trims(purges, zero, m, m')
    case CompactOp => Trims(purges, zero, m, m')
  }

  /** The same operation on a plain map. */
  ghost function Plain<K, V>(op: Op<K, V>, p: map<K, V>): map<K, V> {
    match op
    case TryEmplaceOp(key, value) => if key in p then p else p[key := value]
    case PutOp(key, value) => p[key := value]
    case EraseOp(key) => p - {key}
    case ClearOp => map[]
    case _ => p
  }

  ghost function PlainAnswer<K, V>(zero: V, op: Op<K, V>, p: map<K, V>): Answer<V> {
    match op
    case TryEmplaceOp(key, _) => Flag(key !in p)
    case EraseOp(key) => Flag(key in p)
    case LookupOp(key) => Value(Get(zero, p, key))
    case ContainsOp(key) => Flag(key in p)
    case _ => Nothing
  }

  /** An insertion on a key whose zero the plain map holds but the table may have purged. */
  ghost predicate Risky<K, V>(purges: bool, zero: V, op: Op<K, V>, p: map<K, V>) {
    purges && op.TryEmplaceOp? && op.key in p && p[op.key] == zero && op.value != zero
  }

  /** The table lacks nothing of the plain map but purgeable entries: then every lookup gives the
      same value, and without purging the maps are the same. */
  lemma LookupsAreExact<K(!new), V>(purges: bool, zero: V, m: map<K, V>, p: map<K, V>)
    requires Trims(purges, zero, p, m)
    ensures forall x :: Get(zero, m, x) == Get(zero, p, x)
    ensures !purges ==> m == p
  {
    if !purges {
      assert forall x :: x in p <==> x in m;
    }
  }

  lemma TrimsThen<K(!new), V>(purges: bool, zero: V, a: map<K, V>, b: map<K, V>, c: map<K, V>)
    requires Trims(purges, zero, a, b) && Trims(purges, zero, b, c)
    ensures Trims(purges, zero, a, c)
  {
    forall x | x in a && x !in c ensures Purgeable(purges, zero, a[x]) {
      if x in b { assert Purgeable(purges, zero, b[x]); }
    }
  }

  /** An insertion keeps the agreement exactly when it is not risky, or the key's zero is still
      stored: a caller can check the first in the plain map and the second with `count`. */
  lemma InsertAgreesIff<K(!new), V>(purges: bool, zero: V, key: K, value: V,
                                    m: map<K, V>, m': map<K, V>, p: map<K, V>, inserted: bool)
    requires Trims(purges, zero, p, m) && Inserts(purges, zero, key, value, m, m', inserted)
    ensures Trims(purges, zero, Plain(TryEmplaceOp(key, value), p), m')
            <==> (!Risky(purges, zero, TryEmplaceOp(key, value), p) || key in m)
  {
    if inserted {
      TrimsThen(purges, zero, p, m, m' - {key});
      var p' := Plain(TryEmplaceOp(key, value), p);
      if !Risky(purges, zero, TryEmplaceOp(key, value), p) {
        forall x | x in m' ensures x in p' && m'[x] == p'[x] {
          if x != key { assert x in m' - {key}; }
        }
        forall x | x in p' && x !in m' ensures Purgeable(purges, zero, p'[x]) {
          assert x in p && x !in m' - {key};
        }
      } else {
        assert key in m' && m'[key] != p'[key];
      }
    }
  }

  /** Every other operation keeps the agreement. */
  lemma StepAgrees<K(!new), V>(purges: bool, zero: V, op: Op<K, V>, m: map<K, V>, m': map<K, V>,
                               p: map<K, V>, a: Answer<V>)
    requires Trims(purges, zero, p, m) && Does(purges, zero, op, m, m', a)
    requires !Risky(purges, zero, op, p)
    ensures Trims(purges, zero, Plain(op, p), m')
  {
    match op
    case TryEmplaceOp(key, value) => InsertAgreesIff(purges, zero, key, value, m, m', p, a.yes);
    case PutOp(key, value) =>
      TrimsThen(purges, zero, p - {key}, m - {key}, m' - {key});
      forall x | x in m' ensures x in p[key := value] && m'[x] == p[key := value][x] {
        if x != key { assert x in m' - {key}; }
      }
      forall x | x in p[key := value] && x !in m' ensures Purgeable(purges, zero, p[key := value][x]) {
        assert x in p - {key} && x !in m' - {key};
      }
    case EraseOp(key) =>
      if a.yes {
        TrimsThen(purges, zero, p - {key}, m - {key}, m');
      }
    case ReserveOp(_) => TrimsThen(purges, zero, p, m, m');
    case CompactOp => TrimsThen(purges, zero, p, m, m');
    case _ =>
  }

  /** A run from the empty map. `maps[i]` is the content before operation i. */
  ghost predicate Run<K, V>(purges: bool, zero: V, ops: seq<Op<K, V>>, maps: seq<map<K, V>>, answers: seq<Answer<V>>) {
    && |maps| == |ops| + 1
    && |answers| == |ops|
    && maps[0] == map[]
    && forall i :: 0 <= i < |ops| ==> Does(purges, zero, ops[i], maps[i], maps[i + 1], answers[i])
  }

  ghost function PlainRun<K, V>(ops: seq<Op<K, V>>): map<K, V> {
    if ops == [] then map[] else Plain(ops[|ops| - 1], PlainRun(ops[..|ops| - 1]))
  }

  /** Every risky insertion finds its key stored. */
  ghost predicate Careful<K, V>(purges: bool, zero: V, ops: seq<Op<K, V>>, maps: seq<map<K, V>>) {
    && |ops| < |maps|
    && forall i :: 0 <= i < |ops| && Risky(purges, zero, ops[i], PlainRun(ops[..i])) ==> ops[i].key in maps[i]
  }

  lemma PlainRunNext<K, V>(ops: seq<Op<K, V>>, n: nat)
    requires n < |ops|
    ensures PlainRun(ops[..n + 1]) == Plain(ops[n], PlainRun(ops[..n]))
  {
    assert ops[..n + 1][..n] == ops[..n];
  }

  lemma {:induction false} RunAgrees<K(!new), V>(purges: bool, zero: V, ops: seq<Op<K, V>>, maps: seq<map<K, V>>,
                                                 answers: seq<Answer<V>>, n: nat)
    requires Run(purges, zero, ops, maps, answers) && Careful(purges, zero, ops, maps) && n <= |ops|
    ensures Trims(purges, zero, PlainRun(ops[..n]), maps[n])
  {
    hide Trims, Plain, Inserts;
    if n == 0 {
      TrimsSelf<K, V>(purges, zero, map[]);
    } else {
      RunAgrees(purges, zero, ops, maps, answers, n - 1);
      PlainRunNext(ops, n - 1);
      var op, p := ops[n - 1], PlainRun(ops[..n - 1]);
      if Risky(purges, zero, op, p) {
        InsertAgreesIff(purges, zero, op.key, op.value, maps[n - 1], maps[n], p, answers[n - 1].yes);
      } else {
        StepAgrees(purges, zero, op, maps[n - 1], maps[n], p, answers[n - 1]);
      }
    }
  }

  lemma TrimsSelf<K, V>(purges: bool, zero: V, m: map<K, V>)
    ensures Trims(purges, zero, m, m)
  {
  }

  /** The exact condition: the table stays the plain map without some purgeable entries, all
      through the run, if and only if every risky insertion finds its key stored. */
  lemma RunAgreesIff<K(!new), V>(purges: bool, zero: V, ops: seq<Op<K, V>>, maps: seq<map<K, V>>,
                                 answers: seq<Answer<V>>)
    requires Run(purges, zero, ops, maps, answers)
    ensures (forall n :: 0 <= n <= |ops| ==> Trims(purges, zero, PlainRun(ops[..n]), maps[n]))
       <==> Careful(purges, zero, ops, maps)
  {
    hide Trims, Plain, Inserts, PlainRun;
    if Careful(purges, zero, ops, maps) {
      forall n | 0 <= n <= |ops| ensures Trims(purges, zero, PlainRun(ops[..n]), maps[n]) {
        RunAgrees(purges, zero, ops, maps, answers, n);
      }
    } else {
      var i :| 0 <= i < |ops| && Risky(purges, zero, ops[i], PlainRun(ops[..i])) && ops[i].key !in maps[i];
      var op, p := ops[i], PlainRun(ops[..i]);
      PlainRunNext(ops, i);
      if Trims(purges, zero, p, maps[i]) {
        InsertAgreesIff(purges, zero, op.key, op.value, maps[i], maps[i + 1], p, answers[i].yes);
      }
      assert !(Trims(purges, zero, p, maps[i]) && Trims(purges, zero, PlainRun(ops[..i + 1]), maps[i + 1]));
    }
  }

  /** In every careful run, every lookup answers what the plain map answers; and if nothing is
      purgeable (so every run is careful), every operation does. */
  lemma RunAnswersAgree<K(!new), V>(purges: bool, zero: V, ops: seq<Op<K, V>>, maps: seq<map<K, V>>,
                                    answers: seq<Answer<V>>, n: nat)
    requires Run(purges, zero, ops, maps, answers) && n < |ops|
    requires Careful(purges, zero, ops, maps)
    ensures ops[n].LookupOp? ==> answers[n] == PlainAnswer(zero, ops[n], PlainRun(ops[..n]))
    ensures !purges && PlainAnswer(zero, ops[n], PlainRun(ops[..n])) != Nothing
            ==> answers[n] == PlainAnswer(zero, ops[n], PlainRun(ops[..n]))
  {
    RunAgrees(purges, zero, ops, maps, answers, n);
    LookupsAreExact(purges, zero, maps[n], PlainRun(ops[..n]));
    assert Does(purges, zero, ops[n], maps[n], maps[n + 1], answers[n]);
  }

  /** Careful or not, the table never holds a key that the plain map does not hold. */
  lemma {:induction false} KeysAmong<K(!new), V>(purges: bool, zero: V, ops: seq<Op<K, V>>, maps: seq<map<K, V>>,
                                                 answers: seq<Answer<V>>, n: nat)
    requires Run(purges, zero, ops, maps, answers) && n <= |ops|
    ensures maps[n].Keys <= PlainRun(ops[..n]).Keys
  {
    if n > 0 {
      KeysAmong(purges, zero, ops, maps, answers, n - 1);
      PlainRunNext(ops, n - 1);
      assert Does(purges, zero, ops[n - 1], maps[n - 1], maps[n], answers[n - 1]);
      KeysStep(purges, zero, ops[n - 1], maps[n - 1], maps[n], PlainRun(ops[..n - 1]), answers[n - 1]);
    }
  }

  lemma KeysStep<K(!new), V>(purges: bool, zero: V, op: Op<K, V>, m: map<K, V>, m': map<K, V>, p: map<K, V>,
                             a: Answer<V>)
    requires Does(purges, zero, op, m, m', a) && m.Keys <= p.Keys
    ensures m'.Keys <= Plain(op, p).Keys
  {
    forall x | x in m' ensures x in Plain(op, p) {
      if (op.TryEmplaceOp? || op.PutOp?) && x != op.key { assert x in m' - {op.key} || x in m; }
    }
  }

  /** The operation adds a key. */
  ghost predicate Adds<K, V>(op: Op<K, V>, m: map<K, V>) {
    (op.TryEmplaceOp? || op.PutOp?) && op.key !in m
  }

  /** One operation on the hash table does what `Does` says, and with fewer than MAX_RESERVE
      entries the table stays within MAX_BUCKETS. */
  method Perform<K(==), V(==)>(d: DenseMap<K, V>, op: Op<K, V>) returns (a: Answer<V>)
    requires d.Valid() && d.buckets.Length <= MAX_BUCKETS && (Adds(op, d.Model()) ==> d.numEntries + 1 < MAX_RESERVE)
    requires op.ReserveOp? ==> op.entries < MAX_RESERVE
    modifies d, d.buckets
    ensures d.Valid() && d.buckets.Length <= MAX_BUCKETS
    ensures d.buckets == old(d.buckets) || fresh(d.buckets)
    ensures Does(d.purges, d.zero, op, old(d.Model()), d.Model(), a)
  {
    hide IsPow2, NextPow2, CountLive, CountTomb, Contents, NoGap, Trims, Inserts, Puts, Erases, MinBuckets,
         GrowSize, U32, Kept, ShrunkTo, Sparse, Table, RoomSize;
    a := Nothing;
    match op {
      case TryEmplaceOp(_, _) => a := PerformInsert(d, op);
      case PutOp(_, _) => a := PerformInsert(d, op);
      case EraseOp(key) =>
        var erased := d.Erase(key);
        a := Flag(erased);
      case LookupOp(key) =>
        var v := d.Lookup(key);
        a := Value(v);
      case ContainsOp(key) =>
        var stored := d.Contains(key);
        a := Flag(stored);
      case ClearOp =>
        U32Small(d.numEntries * 4);
        d.Clear();
      case ReserveOp(entries) => d.Reserve(entries);
      case CompactOp => d.Compact();
    }
  }

  method PerformInsert<K(==), V(==)>(d: DenseMap<K, V>, op: Op<K, V>) returns (a: Answer<V>)
    requires op.TryEmplaceOp? || op.PutOp?
    requires d.Valid() && d.buckets.Length <= MAX_BUCKETS && (Adds(op, d.Model()) ==> d.numEntries + 1 < MAX_RESERVE)
    modifies d, d.buckets
    ensures d.Valid() && d.buckets.Length <= MAX_BUCKETS
    ensures d.buckets == old(d.buckets) || fresh(d.buckets)
    ensures Does(d.purges, d.zero, op, old(d.Model()), d.Model(), a)
  {
    hide IsPow2, NextPow2, CountLive, CountTomb, Contents, NoGap, Trims, Inserts, Puts, FirstReusable, U32, RoomSize;
    if Adds(op, d.Model()) { RoomWithin(d.buckets.Length, d.numEntries, d.numTombstones); }
    a := Nothing;
    if op.TryEmplaceOp? {
      var inserted, at, step := d.TryEmplace(op.key, op.value);
      a := Flag(inserted);
    } else {
      ghost var at, step := d.Put(op.key, op.value);
    }
  }

  /** What a caller of the hash table sees of a sequence of operations: every careful sequence gets
      the lookups of a plain map, and without purgeable values all answers are those of one. */
  ghost predicate AnswersLikeAMap<K, V>(purges: bool, zero: V, ops: seq<Op<K, V>>, careful: bool,
                                        answers: seq<Answer<V>>) {
    && |answers| == |ops|
    && forall n :: 0 <= n < |ops| ==>
         var expected := PlainAnswer(zero, ops[n], PlainRun(ops[..n]));
         && (ops[n].LookupOp? && careful ==> answers[n] == expected)
         && (!purges && expected != Nothing ==> answers[n] == expected)
  }

  lemma RunAnswersLikeAMap<K(!new), V>(purges: bool, zero: V, ops: seq<Op<K, V>>, maps: seq<map<K, V>>,
                                       answers: seq<Answer<V>>)
    requires Run(purges, zero, ops, maps, answers)
    ensures AnswersLikeAMap(purges, zero, ops, Careful(purges, zero, ops, maps), answers)
  {
    hide Does, PlainAnswer, PlainRun;
    if Careful(purges, zero, ops, maps) {
      forall n | 0 <= n < |ops|
        ensures var expected := PlainAnswer(zero, ops[n], PlainRun(ops[..n]));
                && (ops[n].LookupOp? ==> answers[n] == expected)
                && (!purges && expected != Nothing ==> answers[n] == expected)
      {
        RunAnswersAgree(purges, zero, ops, maps, answers, n);
      }
    }
  }

  /** The plain map never holds more than the table can. */
  ghost predicate Small<K, V>(ops: seq<Op<K, V>>) {
    forall n :: 0 <= n <= |ops| ==> |PlainRun(ops[..n])| < MAX_RESERVE
  }

  /** A key that is added is one more than the table holds, and in the plain map afterwards. */
  lemma AddedFits<K(!new), V>(purges: bool, zero: V, ops: seq<Op<K, V>>, maps: seq<map<K, V>>,
                              answers: seq<Answer<V>>, n: nat, m: map<K, V>)
    requires n < |ops| && Run(purges, zero, ops[..n], maps, answers) && maps[n] == m && Small(ops)
    requires Adds(ops[n], m)
    ensures |m| + 1 < MAX_RESERVE
  {
    hide Does, Run;
    KeysAmong(purges, zero, ops[..n], maps, answers, n);
    assert ops[..n][..n] == ops[..n];
    PlainRunNext(ops, n);
    SubsetSize(m.Keys + {ops[n].key}, PlainRun(ops[..n + 1]).Keys);
    assert |m.Keys| == |m| && |PlainRun(ops[..n + 1]).Keys| == |PlainRun(ops[..n + 1])|;
  }

  /** Every sequence of operations on the hash table is a run, so the agreement above is about
      the table itself. */
  method Replay<K(==, !new), V(==)>(hash: K -> nat, zero: V, purges: bool, ops: seq<Op<K, V>>)
    returns (answers: seq<Answer<V>>, ghost maps: seq<map<K, V>>)
    requires Small(ops)
    requires forall i :: 0 <= i < |ops| && ops[i].ReserveOp? ==> ops[i].entries < MAX_RESERVE
    ensures Run(purges, zero, ops, maps, answers)
    ensures AnswersLikeAMap(purges, zero, ops, Careful(purges, zero, ops, maps), answers)
  {
    hide AnswersLikeAMap, Careful, Small, Does, IsPow2, NextPow2, CountLive, CountTomb, Contents, NoGap;
    var d := new DenseMap<K, V>(hash, zero, purges, 0);
    answers, maps := [], [d.Model()];
    for n := 0 to |ops|
      invariant d.Valid() && d.buckets.Length <= MAX_BUCKETS
      invariant d.zero == zero && d.purges == purges && fresh(d) && fresh(d.buckets)
      invariant |answers| == n && |maps| == n + 1 && maps[n] == d.Model()
      invariant Run(purges, zero, ops[..n], maps, answers)
    {
      LiveIsSize(d.buckets[..]);
      if Adds(ops[n], d.Model()) {
        AddedFits(purges, zero, ops, maps, answers, n, d.Model());
      }
      var a := Perform(d, ops[n]);
      RunNext(purges, zero, ops, n, maps, answers, d.Model(), a);
      answers, maps := answers + [a], maps + [d.Model()];
    }
    assert ops[..|ops|] == ops;
    RunAnswersLikeAMap(purges, zero, ops, maps, answers);
  }

  lemma RunNext<K, V>(purges: bool, zero: V, ops: seq<Op<K, V>>, n: nat, maps: seq<map<K, V>>, answers: seq<Answer<V>>,
                      m: map<K, V>, a: Answer<V>)
    requires n < |ops| && Run(purges, zero, ops[..n], maps, answers) && Does(purges, zero, ops[n], maps[n], m, a)
    ensures Run(purges, zero, ops[..n + 1], maps + [m], answers + [a])
  {
    hide Does;
    forall i | 0 <= i < n + 1
      ensures Does(purges, zero, ops[..n + 1][i], (maps + [m])[i], (maps + [m])[i + 1], (answers + [a])[i])
    {
      if i < n {
        assert Does(purges, zero, ops[..n][i], maps[i], maps[i + 1], answers[i]);
      }
    }
  }

  lemma SlotOfZero(k: nat)
    ensures Slot(0, 0, k) == 0
  {
    LowZero(k);
  }

  /** One key in the first bucket of its path, all else empty. */
  lemma OneKeyTable(b: seq<Bucket<int, int>>, hash: int -> nat, k: nat, key: int, value: int)
    requires |b| == Pow2(k) && b[0] == Live(key, value) && hash(key) == 0
    requires forall i :: 0 < i < |b| ==> b[i] == Empty
    ensures Table(b, hash, k) && Contents(b) == map[key := value]
  {
    hide Slot, Pow2;
    SlotOfZero(k);
    forall i: nat | 0 < i < |b| ensures Slot(0, i, k) != 0 { SlotsDistinct(0, 0, i, k); }
    assert Stored(b, key) by { assert b[0].key == key; }
    ContentsIs(b, map[key := value]);
  }

  /** Purging is real, in a table of any size: with key 1 stored as zero in the first bucket of
      the path of key 2, the bucket that LookupBucketFor gives to key 2 is that one.  Writing it
      loses key 1, after which the table accepts an insertion of key 1 that a plain map refuses. */
  lemma PurgeLosesKey(hash: int -> nat, k: nat, b: seq<Bucket<int, int>>)
    requires hash(1) == 0 && hash(2) == 0
    requires |b| == Pow2(k) && b[0] == Live(1, 0) && forall i :: 0 < i < |b| ==> b[i] == Empty
    ensures Table(b, hash, k) && Contents(b) == map[1 := 0]
    ensures FirstReusable(b, hash, k, true, 0, 2, 0, 0)
    ensures Unique(b[0 := Live(2, 5)]) && Contents(b[0 := Live(2, 5)]) == map[2 := 5]
    ensures Risky(true, 0, TryEmplaceOp(1, 7), Plain(PutOp(2, 5), Contents(b)))
  {
    hide Slot, Pow2;
    SlotOfZero(k);
    OneKeyTable(b, hash, k, 1, 0);
    OneKeyTable(b[0 := Live(2, 5)], hash, k, 2, 5);
  }

  /** The first reusable bucket is one bucket. */
  lemma FirstReusableUnique<K, V>(b: seq<Bucket<K, V>>, hash: K -> nat, k: nat, purges: bool, zero: V, key: K,
                                  p: nat, i: nat, q: nat, j: nat)
    requires |b| == Pow2(k)
    requires FirstReusable(b, hash, k, purges, zero, key, p, i) && FirstReusable(b, hash, k, purges, zero, key, q, j)
    ensures p == q
  {
    hide Slot, Pow2;
    assert i <= j && j <= i;
  }

  /** The purge is reached by operations on a fresh map of any size: after map[1] = 0 and map[2] = 5
      an insertion of key 1 succeeds, and key 1 then has the new value. The plain map refuses it. */
  method PurgeReached(hash: int -> nat, entries: nat) returns (inserted: bool, value: int)
    requires hash(1) == 0 && hash(2) == 0 && 2 <= entries < MAX_RESERVE
    ensures inserted && value == 7
    ensures var p := PlainRun([PutOp(1, 0), PutOp(2, 5)]);
            PlainAnswer(0, TryEmplaceOp(1, 7), p) == Flag(false)
            && Get(0, Plain(TryEmplaceOp(1, 7), p), 1) == 0
  {
    hide Slot, Pow2, IsPow2, NextPow2, CountLive, CountTomb, NoGap, FirstReusable, Contents, BitLen;
    MinBucketsSize(entries);
    var d := new DenseMap<int, int>(hash, 0, true, entries);
    ghost var b, k := d.buckets[..], Log2(d.buckets.Length);
    RoomUnneeded(|b|, 0);
    ghost var at, step := d.Put(1, 0);
    EmptyOffersFirst(b, hash, k, 1, at, step);
    b := d.buckets[..];
    PurgeLosesKey(hash, k, b);
    RoomUnneeded(|b|, d.numEntries);
    at, step := d.Put(2, 5);
    FirstReusableUnique(b, hash, k, true, 0, 2, at, step, 0, 0);
    inserted, at, step := d.TryEmplace(1, 7);
    value := d.Lookup(1);
    assert [PutOp(1, 0), PutOp(2, 5)][..1] == [PutOp(1, 0)];
    assert PlainRun([PutOp(1, 0)]) == map[1 := 0];
  }

  /** In a table of empty buckets a key with hash zero goes to the first. */
  lemma EmptyOffersFirst(b: seq<Bucket<int, int>>, hash: int -> nat, k: nat, key: int, p: nat, i: nat)
    requires |b| == Pow2(k) && (forall j :: 0 <= j < |b| ==> b[j] == Empty) && hash(key) == 0
    requires FirstReusable(b, hash, k, true, 0, key, p, i)
    ensures p == 0
  {
    hide Slot, Pow2;
    SlotOfZero(k);
    assert !Busy(true, 0, b[Slot(0, 0, k)]);
  }

  function FirstWins<K, V>(pairs: seq<(K, V)>): map<K, V> {
    if pairs == [] then map[]
    else
      var m, last := FirstWins(pairs[..|pairs| - 1]), pairs[|pairs| - 1];
      if last.0 in m then m else m[last.0 := last.1]
  }

  /** No pair brings a nonzero value for a key that an earlier pair gave a purgeable zero. */
  ghost predicate Unrisky<K, V>(purges: bool, zero: V, pairs: seq<(K, V)>) {
    forall i :: 0 <= i < |pairs| ==> !Risky(purges, zero, TryEmplaceOp(pairs[i].0, pairs[i].1), FirstWins(pairs[..i]))
  }

  /** The range constructor: a map built for n pairs takes them without ever growing. Without risky
      pairs it holds the first value of each key, but for purgeable entries. */
  method FromPairs<K(==, !new), V(==)>(hash: K -> nat, zero: V, purges: bool, pairs: seq<(K, V)>)
    returns (d: DenseMap<K, V>, ghost first: array<Bucket<K, V>>)
    requires |pairs| < MAX_RESERVE
    ensures d.Valid() && d.buckets == first && first.Length == MinBuckets(|pairs|)
    ensures Unrisky(purges, zero, pairs) ==> Trims(purges, zero, FirstWins(pairs), d.Model())
    ensures !purges ==> d.Model() == FirstWins(pairs)
  {
    hide IsPow2, NextPow2, CountLive, CountTomb, Contents, NoGap, Trims, Inserts, Risky;
    d := new DenseMap<K, V>(hash, zero, purges, |pairs|);
    first := d.buckets;
    MinBucketsSize(|pairs|);
    NoneCounted(d.buckets[..]);
    TrimsSelf<K, V>(purges, zero, map[]);
    for i := 0 to |pairs|
      invariant d.Valid() && d.buckets == first && fresh(first) && fresh(d)
      invariant d.purges == purges && d.zero == zero
      invariant first.Length == MinBuckets(|pairs|)
      invariant d.numEntries <= i && d.numTombstones == 0
      invariant Unrisky(purges, zero, pairs) ==> Trims(purges, zero, FirstWins(pairs[..i]), d.Model())
    {
      ghost var m := d.Model();
      RoomUnneeded(first.Length, d.numEntries);
      var inserted, at, step := d.TryEmplace(pairs[i].0, pairs[i].1);
      assert pairs[..i + 1][..i] == pairs[..i];
      if Unrisky(purges, zero, pairs) {
        InsertAgreesIff(purges, zero, pairs[i].0, pairs[i].1, m, d.Model(), FirstWins(pairs[..i]), inserted);
      }
    }
    assert pairs[..|pairs|] == pairs;
    if !purges {
      NothingRisky(zero, pairs);
      LookupsAreExact(purges, zero, d.Model(), FirstWins(pairs));
    }
  }

  lemma NothingRisky<K, V>(zero: V, pairs: seq<(K, V)>)
    ensures Unrisky(false, zero, pairs)
  {
  }

  lemma NoneCounted<K, V>(b: seq<Bucket<K, V>>)
    requires Unique(b) && Contents(b) == map[]
    ensures CountLive(b) == 0
  {
    forall i | 0 <= i < |b| ensures !b[i].Live? {
      if b[i].Live? { ContentsAt(b, i); }
    }
    CountNoLive(b);
  }
}
