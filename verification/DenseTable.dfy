/** Open-addressed tables as sequences of buckets: what a well-formed table is, which finite map
    it stands for, and what writing one bucket does to both. */
module DenseTable {
  import opened Bits
  import opened Probing

  datatype Bucket<K, V> = Empty | Tombstone | Live(key: K, value: V)

  /** No key is stored twice. */
  ghost predicate Unique<K, V>(b: seq<Bucket<K, V>>) {
    forall p, q :: 0 <= p < q < |b| && b[p].Live? && b[q].Live? ==> b[p].key != b[q].key
  }

  /** No live key has an empty bucket earlier on its probe path. */
  ghost predicate NoGap<K, V>(b: seq<Bucket<K, V>>, hash: K -> nat, k: nat)
    requires |b| == Pow2(k)
  {
    forall p, i: nat, j: nat ::
      0 <= p < |b| && b[p].Live? && j < i < |b| && Slot(hash(b[p].key), i, k) == p
      ==> b[Slot(hash(b[p].key), j, k)] != Empty
  }

  ghost predicate Table<K, V>(b: seq<Bucket<K, V>>, hash: K -> nat, k: nat) {
    |b| == Pow2(k) && Unique(b) && NoGap(b, hash, k)
  }

  /** The finite map that the live buckets stand for. */
  ghost function Contents<K, V>(b: seq<Bucket<K, V>>): map<K, V>
    requires Unique(b)
  {
    map p | 0 <= p < |b| && b[p].Live? :: b[p].key := b[p].value
  }

  function CountLive<K, V>(b: seq<Bucket<K, V>>): nat {
    if b == [] then 0 else CountLive(b[..|b| - 1]) + if b[|b| - 1].Live? then 1 else 0
  }

  function CountTomb<K, V>(b: seq<Bucket<K, V>>): nat {
    if b == [] then 0 else CountTomb(b[..|b| - 1]) + if b[|b| - 1].Tombstone? then 1 else 0
  }

  lemma {:induction false} CountUpdate<K, V>(b: seq<Bucket<K, V>>, i: nat, x: Bucket<K, V>)
    requires i < |b|
    ensures CountLive(b[i := x]) + (if b[i].Live? then 1 else 0) == CountLive(b) + (if x.Live? then 1 else 0)
    ensures CountTomb(b[i := x]) + (if b[i].Tombstone? then 1 else 0) == CountTomb(b) + (if x.Tombstone? then 1 else 0)
  {
    var n := |b| - 1;
    if i < n {
      CountUpdate(b[..n], i, x);
      assert b[i := x][..n] == b[..n][i := x];
    } else {
      assert b[i := x][..n] == b[..n];
    }
  }

  /** Some bucket is empty exactly when live buckets and tombstones do not fill the table. */
  lemma {:induction false} CountEmpty<K, V>(b: seq<Bucket<K, V>>)
    ensures CountLive(b) + CountTomb(b) <= |b|
    ensures Empty in b <==> CountLive(b) + CountTomb(b) < |b|
  {
    if b != [] {
      var n := |b| - 1;
      CountEmpty(b[..n]);
      assert b == b[..n] + [b[n]];
    }
  }

  lemma {:induction false} CountAllEmpty<K, V>(b: seq<Bucket<K, V>>)
    requires forall i :: 0 <= i < |b| ==> b[i] == Empty
    ensures CountLive(b) == 0 && CountTomb(b) == 0
  {
    if b != [] { CountAllEmpty(b[..|b| - 1]); }
  }

  /** With no live bucket the map is empty, and the other way round. */
  lemma {:induction false} CountNoLive<K, V>(b: seq<Bucket<K, V>>)
    ensures CountLive(b) == 0 <==> forall i :: 0 <= i < |b| ==> !b[i].Live?
  {
    if b != [] { CountNoLive(b[..|b| - 1]); }
  }

  /** The key is stored in some live bucket exactly when it is in the map. */
  lemma ContentsAt<K, V>(b: seq<Bucket<K, V>>, p: nat)
    requires Unique(b) && p < |b| && b[p].Live?
    ensures b[p].key in Contents(b) && Contents(b)[b[p].key] == b[p].value
  {
  }

  /** Probing met an empty bucket and not the key on the way: the key is not in the table. */
  lemma AbsentAtGap<K, V>(b: seq<Bucket<K, V>>, hash: K -> nat, k: nat, key: K, i: nat)
    requires Table(b, hash, k) && i < |b| && b[Slot(hash(key), i, k)] == Empty
    requires forall j: nat :: j < i ==> !(b[Slot(hash(key), j, k)].Live? && b[Slot(hash(key), j, k)].key == key)
    ensures key !in Contents(b)
  {
    hide Slot;
    if key in Contents(b) {
      var p :| 0 <= p < |b| && b[p].Live? && b[p].key == key;
      var i' := SlotsCover(hash(key), p, k);
    }
  }

  /** A place where a key may be written: on its probe path, with no gap before it. */
  ghost predicate OpenSlot<K, V>(b: seq<Bucket<K, V>>, hash: K -> nat, k: nat, key: K, pos: nat, i: nat)
    requires |b| == Pow2(k)
  {
    && i < |b|
    && pos == Slot(hash(key), i, k)
    && forall j: nat :: j < i ==> b[Slot(hash(key), j, k)] != Empty
  }

  /** Writing a live bucket keeps probe paths free of gaps. */
  lemma PutKeepsPaths<K, V>(b: seq<Bucket<K, V>>, hash: K -> nat, k: nat, key: K, value: V, pos: nat, i: nat)
    requires Table(b, hash, k) && OpenSlot(b, hash, k, key, pos, i)
    ensures NoGap(b[pos := Live(key, value)], hash, k)
  {
    hide Slot, Pow2;
    var b' := b[pos := Live(key, value)];
    forall p, i2: nat, j: nat | 0 <= p < |b'| && b'[p].Live? && j < i2 < |b'| && Slot(hash(b'[p].key), i2, k) == p
      ensures b'[Slot(hash(b'[p].key), j, k)] != Empty
    {
      if p == pos {
        if i2 < i { SlotsDistinct(hash(key), i2, i, k); }
        if i < i2 { SlotsDistinct(hash(key), i, i2, k); }
        assert b[Slot(hash(key), j, k)] != Empty;
      } else {
        assert b[Slot(hash(b[p].key), j, k)] != Empty;
      }
    }
  }

  ghost predicate Stored<K, V>(b: seq<Bucket<K, V>>, x: K) {
    exists q :: 0 <= q < |b| && b[q].Live? && b[q].key == x
  }

  /** A map with the right pairs and no others is the map of the table. */
  lemma ContentsIs<K, V>(b: seq<Bucket<K, V>>, m: map<K, V>)
    requires Unique(b)
    requires forall p :: 0 <= p < |b| && b[p].Live? ==> b[p].key in m && m[b[p].key] == b[p].value
    requires forall x :: x in m ==> Stored(b, x)
    ensures Contents(b) == m
  {
    var c := Contents(b);
    forall x ensures x in c <==> x in m {
      if x in m { assert Stored(b, x); }
    }
    forall x | x in c ensures c[x] == m[x] {
      var q :| 0 <= q < |b| && b[q].Live? && b[q].key == x;
      ContentsAt(b, q);
    }
  }

  /** Writing a live bucket whose key is nowhere else keeps keys unique. */
  lemma PutUnique<K, V>(b: seq<Bucket<K, V>>, key: K, value: V, pos: nat)
    requires Unique(b) && pos < |b|
    requires key !in Contents(b) || (b[pos].Live? && b[pos].key == key)
    ensures Unique(b[pos := Live(key, value)])
    ensures forall q :: 0 <= q < |b| && q != pos && b[q].Live? ==> b[q].key != key
  {
    forall q | 0 <= q < |b| && q != pos && b[q].Live? ensures b[q].key != key {
      ContentsAt(b, q);
      assert q < pos || pos < q;
    }
  }

  /** ... and changes the map at the key, dropping only the key that was stored there. */
  lemma PutContents<K, V>(b: seq<Bucket<K, V>>, key: K, value: V, pos: nat)
    requires Unique(b) && pos < |b|
    requires key !in Contents(b) || (b[pos].Live? && b[pos].key == key)
    ensures Unique(b[pos := Live(key, value)])
    ensures Contents(b[pos := Live(key, value)])
            == (if b[pos].Live? then Contents(b) - {b[pos].key} else Contents(b))[key := value]
  {
    var b' := b[pos := Live(key, value)];
    PutUnique(b, key, value, pos);
    var m := (if b[pos].Live? then Contents(b) - {b[pos].key} else Contents(b))[key := value];
    forall p | 0 <= p < |b'| && b'[p].Live? ensures b'[p].key in m && m[b'[p].key] == b'[p].value {
      if p != pos {
        ContentsAt(b, p);
        assert p < pos || pos < p;
      }
    }
    forall x | x in m ensures Stored(b', x) {
      if x == key {
        assert b'[pos].Live? && b'[pos].key == x;
      } else {
        var q :| 0 <= q < |b| && b[q].Live? && b[q].key == x;
        assert b'[q].Live? && b'[q].key == x;
      }
    }
    ContentsIs(b', m);
  }

  /** Turning a live bucket into a tombstone removes its key and opens no gap. */
  lemma EraseAt<K, V>(b: seq<Bucket<K, V>>, hash: K -> nat, k: nat, pos: nat)
    requires Table(b, hash, k) && pos < |b| && b[pos].Live?
    ensures Table(b[pos := Tombstone], hash, k)
    ensures Contents(b[pos := Tombstone]) == Contents(b) - {b[pos].key}
  {
    hide Slot;
    var b' := b[pos := Tombstone];
    forall p, i: nat, j: nat | 0 <= p < |b'| && b'[p].Live? && j < i < |b'| && Slot(hash(b'[p].key), i, k) == p
      ensures b'[Slot(hash(b'[p].key), j, k)] != Empty
    {
      assert b[Slot(hash(b[p].key), j, k)] != Empty;
    }
    var m := Contents(b) - {b[pos].key};
    forall p | 0 <= p < |b'| && b'[p].Live? ensures b'[p].key in m && m[b'[p].key] == b'[p].value {
      ContentsAt(b, p);
      assert p < pos || pos < p;
    }
    forall x | x in m ensures Stored(b', x) {
      var q :| 0 <= q < |b| && b[q].Live? && b[q].key == x;
      assert b'[q].Live? && b'[q].key == x;
    }
    ContentsIs(b', m);
  }

  /** Writing a new key at an open slot: the table stays well formed, the map gains the key and
      loses at most the key that was stored there, and the counts follow. */
  lemma PutTable<K, V>(b: seq<Bucket<K, V>>, hash: K -> nat, k: nat, key: K, value: V, pos: nat, i: nat)
    requires Table(b, hash, k) && OpenSlot(b, hash, k, key, pos, i) && key !in Contents(b)
    ensures var b' := b[pos := Live(key, value)];
            && Table(b', hash, k)
            && Contents(b') == (if b[pos].Live? then Contents(b) - {b[pos].key} else Contents(b))[key := value]
            && CountLive(b') == CountLive(b) + (if b[pos].Live? then 0 else 1)
            && CountTomb(b') == CountTomb(b) - (if b[pos].Tombstone? then 1 else 0)
  {
    hide Slot, Pow2, CountLive, CountTomb, Contents;
    PutKeepsPaths(b, hash, k, key, value, pos, i);
    PutContents(b, key, value, pos);
    CountUpdate(b, pos, Live(key, value));
  }

  /** The map of a longer prefix. */
  lemma ContentsSnoc<K, V>(b: seq<Bucket<K, V>>, i: nat)
    requires Unique(b) && i < |b|
    ensures Unique(b[..i]) && Unique(b[..i + 1])
    ensures b[i].Live? ==> b[i].key !in Contents(b[..i])
    ensures Contents(b[..i + 1]) == if b[i].Live? then Contents(b[..i])[b[i].key := b[i].value] else Contents(b[..i])
  {
    var m := if b[i].Live? then Contents(b[..i])[b[i].key := b[i].value] else Contents(b[..i]);
    forall p | 0 <= p < i + 1 && b[p].Live? ensures b[p].key in m && m[b[p].key] == b[p].value {
      if p < i { ContentsAt(b[..i], p); }
    }
    forall x | x in m ensures Stored(b[..i + 1], x) {
      if b[i].Live? && x == b[i].key {
        assert b[..i + 1][i].key == x;
      } else {
        var q :| 0 <= q < i && b[..i][q].Live? && b[..i][q].key == x;
        assert b[..i + 1][q].key == x;
      }
    }
    ContentsIs(b[..i + 1], m);
  }

  /** As many live buckets as keys. */
  lemma {:induction false} LiveIsSize<K, V>(b: seq<Bucket<K, V>>)
    requires Unique(b)
    ensures CountLive(b) == |Contents(b)|
  {
    hide Contents;
    if b == [] {
      ContentsIs(b, map[]);
    } else {
      var n := |b| - 1;
      ContentsSnoc(b, n);
      assert b[..n + 1] == b;
      LiveIsSize(b[..n]);
    }
  }

  lemma EmptyTable<K, V>(b: seq<Bucket<K, V>>, hash: K -> nat, k: nat)
    requires |b| == Pow2(k) && forall i :: 0 <= i < |b| ==> b[i] == Empty
    ensures Table(b, hash, k) && Contents(b) == map[]
  {
  }
}
