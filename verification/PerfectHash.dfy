/** The search for a perfect hash: `initnorm`, `inittab`, `apply`, `augment`, `perfect`,
    `findhash` and `make_perfect`.

    Pointers to keys and to `bstuff` entries are indices, the null pointer is -1, and each field
    of the structs `key` and `bstuff` is a sequence of its own. */
module PerfectHash {
  import opened Bits
  import opened Hash64
  import opened SearchSchedule
  import opened Scramble
  import opened Pigeonhole

  /** The last of the first n keys whose b is the given one, or -1. */
  function LastBefore(bK: seq<nat>, b: nat, n: nat): (r: int)
    requires n <= |bK|
    ensures -1 <= r < n
    ensures r >= 0 ==> bK[r] == b
    ensures forall j :: r < j < n ==> bK[j] != b
  {
    if n == 0 then -1 else if bK[n - 1] == b then n - 1 else LastBefore(bK, b, n - 1)
  }

  /** How many of the first n keys have the given b. */
  function CountOf(bK: seq<nat>, b: nat, n: nat): (c: nat)
    requires n <= |bK|
    ensures c > 0 <==> exists j :: 0 <= j < n && bK[j] == b
  {
    if n == 0 then 0 else CountOf(bK, b, n - 1) + if bK[n - 1] == b then 1 else 0
  }

  /** The first n keys are threaded into one list per b, last key first. */
  ghost predicate Threaded(bK: seq<nat>, nextB: seq<int>, listB: seq<int>, lenB: seq<nat>, n: nat) {
    && n <= |bK| == |nextB|
    && |listB| == |lenB|
    && (forall i {:trigger nextB[i]} :: 0 <= i < n ==> nextB[i] == LastBefore(bK, bK[i], i))
    && (forall b {:trigger listB[b]} {:trigger lenB[b]} ::
          0 <= b < |listB| ==> listB[b] == LastBefore(bK, b, n) && lenB[b] == CountOf(bK, b, n))
  }

  /** The first n keys have distinct (a,b) pairs. */
  ghost predicate DistinctPairs(aK: seq<nat>, bK: seq<nat>, n: nat) {
    && n <= |aK| == |bK|
    && forall i, j :: 0 <= i < j < n && bK[i] == bK[j] ==> aK[i] != aK[j]
  }

  ghost predicate NoTwice(names: seq<Name>) { forall i, j :: 0 <= i < j < |names| ==> names[i] != names[j] }

  ghost predicate AllBelow(s: seq<nat>, n: nat) { forall i :: 0 <= i < |s| ==> s[i] < n }

  lemma OneKeyDistinct(aK: seq<nat>, bK: seq<nat>)
    requires |aK| == |bK| == 1
    ensures DistinctPairs(aK, bK, 1)
  {
  }

  lemma ThreadNone(bK: seq<nat>, nextB: seq<int>, listB: seq<int>, lenB: seq<nat>)
    requires |bK| == |nextB| && |listB| == |lenB|
    requires forall b :: 0 <= b < |listB| ==> listB[b] == -1 && lenB[b] == 0
    ensures Threaded(bK, nextB, listB, lenB, 0)
  {
  }

  /** Pushing key i onto the list of its b. */
  lemma ThreadOne(bK: seq<nat>, nextB: seq<int>, listB: seq<int>, lenB: seq<nat>, i: nat)
    requires Threaded(bK, nextB, listB, lenB, i) && i < |bK| && bK[i] < |listB|
    ensures var b := bK[i];
            Threaded(bK, nextB[i := listB[b]], listB[b := i], lenB[b := lenB[b] + 1], i + 1)
  {
  }

  datatype Status = Found | GaveUp | OutOfFuel

  /** The a of a 64-bit hash: its top loga bits. */
  function CoordA(h: U64, loga: nat): nat
    requires loga <= 64
  {
    if loga > 0 then Shr(h, 64 - loga) else 0
  }

  /** `initalen`'s guess for blen; alen starts at smax. The floating point bounds 0.6 and 0.8 of a
      power of two are never integers, so the comparisons are exact. */
  function InitialBlen(smax: nat, nkeys: nat): nat {
    var guess := if 5 * nkeys <= 3 * smax then smax / 16 else if 5 * nkeys <= 4 * smax then smax / 8 else smax / 4;
    if guess < 1 then 1 else guess
  }

  /** The hashed keys and the scramble table, with smax == 2^k. */
  datatype Coords = Coords(aK: seq<nat>, bK: seq<nat>, scramble: seq<nat>, k: nat)

  ghost predicate Good(c: Coords) {
    && |c.aK| == |c.bK|
    && |c.scramble| == 256
    && AllBelow(c.aK, Pow2(c.k))
    && AllBelow(c.scramble, Pow2(c.k))
  }

  /** The final hash of key j when its b has value v. */
  ghost function SlotOf(c: Coords, j: nat, v: nat): (h: nat)
    requires Good(c) && j < |c.aK| && v < 256
    ensures h < Pow2(c.k)
  {
    XorBound(c.aK[j], c.scramble[v], c.k);
    Xor(c.aK[j], c.scramble[v])
  }

  /** tabh maps each final hash to a key, or to -1. */
  ghost predicate HashTable(c: Coords, tabh: seq<int>) {
    && Good(c)
    && |tabh| == Pow2(c.k)
    && forall s :: 0 <= s < |tabh| ==> -1 <= tabh[s] < |c.bK|
  }

  /** With value i, all keys of the item land on free slots. */
  ghost predicate Free(c: Coords, tabh: seq<int>, item: nat, i: nat)
    requires HashTable(c, tabh) && i < 256
  {
    forall j :: 0 <= j < |c.bK| && c.bK[j] == item ==> tabh[SlotOf(c, j, i)] == -1
  }

  /** `i` is the least value that puts all of the item's keys on free slots, or 256. */
  ghost predicate LeastFree(c: Coords, tabh: seq<int>, item: nat, i: nat)
    requires HashTable(c, tabh)
  {
    && i <= 256
    && (i < 256 ==> Free(c, tabh, item, i))
    && forall i' :: 0 <= i' < i ==> !Free(c, tabh, item, i')
  }

  ghost predicate Values(c: Coords, valB: seq<nat>) { AllBelow(valB, 256) && AllBelow(c.bK, |valB|) }

  /** The keys of the bs in `done`, and no others, sit on their final slots. */
  ghost predicate Placed(c: Coords, tabh: seq<int>, valB: seq<nat>, done: set<nat>)
    requires HashTable(c, tabh) && Values(c, valB)
  {
    && (forall s :: 0 <= s < |tabh| && tabh[s] >= 0 ==>
          c.bK[tabh[s]] in done && SlotOf(c, tabh[s], valB[c.bK[tabh[s]]]) == s)
    && (forall j :: 0 <= j < |c.bK| && c.bK[j] in done ==> tabh[SlotOf(c, j, valB[c.bK[j]])] == j)
  }

  /** No key of the item is on any slot. */
  ghost predicate Absent(c: Coords, tabh: seq<int>, item: nat)
    requires HashTable(c, tabh)
  {
    forall s :: 0 <= s < |tabh| && tabh[s] >= 0 ==> c.bK[tabh[s]] != item
  }

  lemma NotPlacedIsAbsent(c: Coords, tabh: seq<int>, valB: seq<nat>, done: set<nat>, item: nat)
    requires HashTable(c, tabh) && Values(c, valB) && Placed(c, tabh, valB, done) && item !in done
    ensures Absent(c, tabh, item)
  {
  }

  /** A lone key that is not placed finds every slot free. */
  lemma LoneKeyFree(c: Coords, tabh: seq<int>, valB: seq<nat>, done: set<nat>, item: nat)
    requires HashTable(c, tabh) && Values(c, valB) && Placed(c, tabh, valB, done) && item !in done && |c.bK| == 1
    ensures Free(c, tabh, item, 0)
  {
    hide Xor, Pow2;
  }

  /** Only slots that now hold a key of pb, on its own slot, have changed. */
  ghost predicate Moved(c: Coords, was: seq<int>, tabh: seq<int>, pb: nat, v: nat)
    requires HashTable(c, was) && HashTable(c, tabh) && v < 256
  {
    forall s :: 0 <= s < |tabh| && tabh[s] != was[s] ==>
      tabh[s] >= 0 && c.bK[tabh[s]] == pb && SlotOf(c, tabh[s], v) == s
  }

  /** Every key of pb above k is on its slot. */
  ghost predicate AllOn(c: Coords, tabh: seq<int>, pb: nat, v: nat, k: int)
    requires HashTable(c, tabh) && v < 256 && k >= -1
  {
    forall j :: k < j < |c.bK| && c.bK[j] == pb ==> tabh[SlotOf(c, j, v)] == j
  }

  /** No slot that was taken has changed. */
  ghost predicate KeepsTaken(was: seq<int>, tabh: seq<int>) {
    |was| == |tabh| && forall s :: 0 <= s < |tabh| && was[s] >= 0 ==> tabh[s] == was[s]
  }

  /** The keys of pb above k have been put on slots that were free. */
  ghost predicate PlacedAbove(c: Coords, was: seq<int>, table: seq<int>, pb: nat, v: nat, k: int)
    requires HashTable(c, was) && HashTable(c, table) && v < 256 && k >= -1
  {
    && Moved(c, was, table, pb, v) && AllOn(c, table, pb, v, k) && KeepsTaken(was, table)
    && (forall s :: 0 <= s < |table| && table[s] != was[s] ==> k < table[s])
    && (forall j :: k < j < |c.bK| && c.bK[j] == pb ==> was[SlotOf(c, j, v)] == -1)
  }

  /** If all slots of pb are free, its next key does not find its slot taken: this is where apply
      would roll back. */
  lemma NotTaken(c: Coords, was: seq<int>, table: seq<int>, pb: nat, v: nat, mykey: nat)
    requires HashTable(c, was) && HashTable(c, table) && v < 256 && DistinctPairs(c.aK, c.bK, |c.aK|)
    requires mykey < |c.bK| && c.bK[mykey] == pb && PlacedAbove(c, was, table, pb, v, mykey)
    ensures Free(c, was, pb, v) ==> table[SlotOf(c, mykey, v)] == -1
  {
    hide Xor, Pow2;
    var h := SlotOf(c, mykey, v);
    if table[h] != was[h] {
      SameSlot(c, table[h], mykey, v);
    }
  }

  lemma PlaceOne(c: Coords, was: seq<int>, table: seq<int>, pb: nat, v: nat, mykey: nat, next: int)
    requires HashTable(c, was) && HashTable(c, table) && v < 256
    requires -1 <= next < mykey < |c.bK| && c.bK[mykey] == pb && PlacedAbove(c, was, table, pb, v, mykey)
    requires table[SlotOf(c, mykey, v)] == -1 && forall j :: next < j < mykey ==> c.bK[j] != pb
    ensures var table' := table[SlotOf(c, mykey, v) := mykey];
            HashTable(c, table') && PlacedAbove(c, was, table', pb, v, next)
  {
    hide Xor, Pow2;
  }

  lemma PlaceNone(c: Coords, was: seq<int>, pb: nat, v: nat, k: int)
    requires HashTable(c, was) && v < 256 && k >= -1 && forall j :: k < j < |c.bK| ==> c.bK[j] != pb
    ensures PlacedAbove(c, was, was, pb, v, k)
  {
  }

  lemma PlacedAboveParts(c: Coords, was: seq<int>, table: seq<int>, pb: nat, v: nat, k: int)
    requires HashTable(c, was) && HashTable(c, table) && v < 256 && k >= -1
    requires PlacedAbove(c, was, table, pb, v, k)
    ensures Moved(c, was, table, pb, v) && AllOn(c, table, pb, v, k) && KeepsTaken(was, table)
  {
  }

  lemma PlaceDone(c: Coords, was: seq<int>, table: seq<int>, pb: nat, v: nat)
    requires HashTable(c, was) && HashTable(c, table) && v < 256 && PlacedAbove(c, was, table, pb, v, -1)
    ensures Free(c, was, pb, v) && Moved(c, was, table, pb, v) && AllOn(c, table, pb, v, -1) && KeepsTaken(was, table)
  {
    hide Xor, Pow2;
  }

  /** Rolling back, the next key of pb takes its slot whatever is there. */
  lemma RestoreOne(c: Coords, was: seq<int>, table: seq<int>, pb: nat, v: nat, mykey: nat, next: int)
    requires HashTable(c, was) && HashTable(c, table) && v < 256 && DistinctPairs(c.aK, c.bK, |c.aK|)
    requires -1 <= next < mykey < |c.bK| && c.bK[mykey] == pb
    requires Moved(c, was, table, pb, v) && AllOn(c, table, pb, v, mykey)
    requires forall j :: next < j < mykey ==> c.bK[j] != pb
    ensures var table' := table[SlotOf(c, mykey, v) := mykey];
            HashTable(c, table') && Moved(c, was, table', pb, v) && AllOn(c, table', pb, v, next)
  {
    hide Xor, Pow2;
    forall j | next < j < |c.bK| && c.bK[j] == pb
      ensures table[SlotOf(c, mykey, v) := mykey][SlotOf(c, j, v)] == j
    {
      if SlotOf(c, j, v) == SlotOf(c, mykey, v) {
        SameSlot(c, j, mykey, v);
      }
    }
  }

  /** What the first loop of `apply` leaves: the keys of pb taken off the slots they hold. */
  ghost predicate Erased(c: Coords, was: seq<int>, tabh: seq<int>, pb: nat, v: nat)
    requires HashTable(c, was) && HashTable(c, tabh) && v < 256
  {
    forall s :: 0 <= s < |tabh| ==>
      tabh[s] == if was[s] >= 0 && c.bK[was[s]] == pb && SlotOf(c, was[s], v) == s then -1 else was[s]
  }

  /** Taking the keys of pb off and putting them on free slots for a new value keeps all keys placed
      and places those of pb. */
  lemma PlacedStep(c: Coords, was: seq<int>, erased: seq<int>, tabh: seq<int>, valB: seq<nat>, pb: nat, v: nat,
                   done: set<nat>)
    requires HashTable(c, was) && HashTable(c, erased) && HashTable(c, tabh)
    requires Values(c, valB) && pb < |valB| && v < 256
    requires Placed(c, was, valB, done) && Erased(c, was, erased, pb, valB[pb])
    requires Moved(c, erased, tabh, pb, v) && AllOn(c, tabh, pb, v, -1) && KeepsTaken(erased, tabh)
    ensures Values(c, valB[pb := v]) && Placed(c, tabh, valB[pb := v], done + {pb})
  {
    hide Xor, Pow2;
    var vals := valB[pb := v];
    forall j | 0 <= j < |c.bK| && c.bK[j] in done + {pb} ensures tabh[SlotOf(c, j, vals[c.bK[j]])] == j {
      if c.bK[j] != pb { assert was[SlotOf(c, j, valB[c.bK[j]])] == j; }
    }
    forall s | 0 <= s < |tabh| && tabh[s] >= 0
      ensures c.bK[tabh[s]] in done + {pb} && SlotOf(c, tabh[s], vals[c.bK[tabh[s]]]) == s
    {
      if tabh[s] == erased[s] { assert was[s] == tabh[s]; }
    }
  }

  /** A b that is not mapped has no key to take off. */
  lemma EraseNothing(c: Coords, was: seq<int>, erased: seq<int>, valB: seq<nat>, done: set<nat>, pb: nat)
    requires HashTable(c, was) && HashTable(c, erased) && Values(c, valB) && pb < |valB|
    requires Placed(c, was, valB, done) && pb !in done && Erased(c, was, erased, pb, valB[pb])
    ensures erased == was
  {
    hide Xor, Pow2;
  }

  // ---------------------------------------------------------------- rolling back

  /** Between a failed `apply` and the end of its rollback: only keys and values of the bs in
      `path` may differ from what they were, and a key that moved is on the slot of its value. */
  ghost predicate Settling(c: Coords, was: seq<int>, vals: seq<nat>, tabh: seq<int>, valB: seq<nat>, path: set<nat>)
    requires HashTable(c, was) && HashTable(c, tabh) && Values(c, valB) && |vals| == |valB|
  {
    && (forall s :: 0 <= s < |tabh| && tabh[s] >= 0 && tabh[s] != was[s] ==>
          c.bK[tabh[s]] in path && SlotOf(c, tabh[s], valB[c.bK[tabh[s]]]) == s)
    && (forall s :: 0 <= s < |tabh| && was[s] >= 0 && tabh[s] != was[s] ==> c.bK[was[s]] in path)
    && (forall b :: 0 <= b < |valB| && b !in path ==> valB[b] == vals[b])
  }

  lemma SettlingStart(c: Coords, was: seq<int>, vals: seq<nat>, path: set<nat>)
    requires HashTable(c, was) && Values(c, vals)
    ensures Settling(c, was, vals, was, vals, path)
  {
  }

  /** Taking keys of the path off and changing their value goes on settling. */
  lemma SettlingErase(c: Coords, was: seq<int>, vals: seq<nat>, tabh: seq<int>, erased: seq<int>, valB: seq<nat>,
                      path: set<nat>, pb: nat, v: nat)
    requires HashTable(c, was) && HashTable(c, tabh) && HashTable(c, erased) && Values(c, valB) && |vals| == |valB|
    requires pb in path && pb < |valB| && v < 256
    requires Settling(c, was, vals, tabh, valB, path) && Erased(c, tabh, erased, pb, valB[pb])
    ensures Values(c, valB[pb := v]) && Settling(c, was, vals, erased, valB[pb := v], path)
    ensures forall s :: 0 <= s < |erased| && erased[s] >= 0 && c.bK[erased[s]] == pb ==> erased[s] == was[s]
  {
    hide Xor, Pow2;
  }

  /** So does putting keys of the path on free slots. */
  lemma SettlingPlace(c: Coords, was: seq<int>, vals: seq<nat>, erased: seq<int>, tabh: seq<int>, valB: seq<nat>,
                      path: set<nat>, pb: nat)
    requires HashTable(c, was) && HashTable(c, erased) && HashTable(c, tabh) && Values(c, valB) && |vals| == |valB|
    requires pb in path && pb < |valB| && Settling(c, was, vals, erased, valB, path)
    requires Moved(c, erased, tabh, pb, valB[pb]) && KeepsTaken(erased, tabh)
    ensures Settling(c, was, vals, tabh, valB, path)
  {
    hide Xor, Pow2;
  }

  /** Putting the keys of pb back on their old slots settles pb. */
  lemma SettlingRestore(c: Coords, was: seq<int>, vals: seq<nat>, erased: seq<int>, tabh: seq<int>, valB: seq<nat>,
                        path: set<nat>, rest: set<nat>, pb: nat, done: set<nat>)
    requires HashTable(c, was) && HashTable(c, erased) && HashTable(c, tabh) && Values(c, valB) && |vals| == |valB|
    requires Values(c, vals) && Placed(c, was, vals, done) && path <= rest + {pb}
    requires pb < |valB| && valB[pb] == vals[pb] && Settling(c, was, vals, erased, valB, path)
    requires forall s :: 0 <= s < |erased| && erased[s] >= 0 && c.bK[erased[s]] == pb ==> erased[s] == was[s]
    requires Moved(c, erased, tabh, pb, valB[pb])
    requires if pb in done then AllOn(c, tabh, pb, valB[pb], -1) else tabh == erased
    ensures Settling(c, was, vals, tabh, valB, rest)
  {
    hide Xor, Pow2;
    forall s | 0 <= s < |tabh| && tabh[s] != erased[s] ensures tabh[s] == was[s] {
      assert was[SlotOf(c, tabh[s], vals[pb])] == tabh[s];
    }
    forall s | 0 <= s < |tabh| && was[s] >= 0 && tabh[s] != was[s] ensures c.bK[was[s]] in rest {
      assert c.bK[was[s]] in done && SlotOf(c, was[s], vals[c.bK[was[s]]]) == s;
    }
  }

  /** One iteration of `apply`, forwards: it goes on settling, and maps pb if it succeeds. */
  lemma MoveForth(c: Coords, was: seq<int>, vals: seq<nat>, before: seq<int>, erased: seq<int>, tabh: seq<int>,
                  valB: seq<nat>, path: set<nat>, pb: nat, v: nat, mapped: set<nat>, ok: bool)
    requires HashTable(c, was) && HashTable(c, before) && HashTable(c, erased) && HashTable(c, tabh)
    requires Values(c, valB) && |vals| == |valB| && pb in path && pb < |valB| && v < 256
    requires Settling(c, was, vals, before, valB, path) && Placed(c, before, valB, mapped)
    requires Erased(c, before, erased, pb, valB[pb]) && Moved(c, erased, tabh, pb, v) && KeepsTaken(erased, tabh)
    requires ok ==> AllOn(c, tabh, pb, v, -1)
    ensures Values(c, valB[pb := v]) && Settling(c, was, vals, tabh, valB[pb := v], path)
    ensures ok ==> Placed(c, tabh, valB[pb := v], mapped + {pb})
  {
    hide Xor, Pow2, SlotOf, Good, Settling, Placed, Erased, Moved, KeepsTaken, AllOn;
    SettlingErase(c, was, vals, before, erased, valB, path, pb, v);
    SettlingPlace(c, was, vals, erased, tabh, valB[pb := v], path, pb);
    if ok { PlacedStep(c, before, erased, tabh, valB, pb, v, mapped); }
  }

  /** One iteration of `apply`, rolling back: pb has settled. */
  lemma MoveBack(c: Coords, was: seq<int>, vals: seq<nat>, before: seq<int>, erased: seq<int>, tabh: seq<int>,
                 valB: seq<nat>, rest: set<nat>, pb: nat, done: set<nat>)
    requires HashTable(c, was) && HashTable(c, before) && HashTable(c, erased) && HashTable(c, tabh)
    requires Values(c, vals) && Values(c, valB) && |vals| == |valB| && pb < |valB| && Placed(c, was, vals, done)
    requires Settling(c, was, vals, before, valB, {pb} + rest) && Erased(c, before, erased, pb, valB[pb])
    requires vals[pb] < 256 && Moved(c, erased, tabh, pb, vals[pb])
    requires if pb in done then AllOn(c, tabh, pb, vals[pb], -1) else tabh == erased
    ensures Values(c, valB[pb := vals[pb]]) && Settling(c, was, vals, tabh, valB[pb := vals[pb]], rest)
  {
    hide Xor, Pow2, SlotOf, Good, Settling, Placed, Erased, Moved, AllOn;
    SettlingErase(c, was, vals, before, erased, valB, {pb} + rest, pb, vals[pb]);
    SettlingRestore(c, was, vals, erased, tabh, valB[pb := vals[pb]], {pb} + rest, rest, pb, done);
  }

  lemma SettlingEnd(c: Coords, was: seq<int>, vals: seq<nat>, tabh: seq<int>, valB: seq<nat>)
    requires HashTable(c, was) && HashTable(c, tabh) && Values(c, valB) && |vals| == |valB|
    requires Settling(c, was, vals, tabh, valB, {})
    ensures tabh == was && valB == vals
  {
    hide Xor, Pow2;
    forall s | 0 <= s < |tabh| ensures tabh[s] == was[s] {
      assert -1 <= tabh[s] && -1 <= was[s];
    }
  }

  /** Two keys of one b never share a slot. */
  lemma SameSlot(c: Coords, i: nat, j: nat, v: nat)
    requires Good(c) && i < |c.bK| && j < |c.bK| && v < 256 && DistinctPairs(c.aK, c.bK, |c.aK|)
    requires c.bK[i] == c.bK[j] && SlotOf(c, i, v) == SlotOf(c, j, v)
    ensures i == j
  {
    hide Xor;
    XorCancel(c.aK[i], c.aK[j], c.scramble[v]);
  }

  /** Keys that are placed have distinct final hashes. */
  lemma PlacedIsInjective(c: Coords, tabh: seq<int>, valB: seq<nat>, done: set<nat>, i: nat, j: nat)
    requires HashTable(c, tabh) && Values(c, valB) && Placed(c, tabh, valB, done)
    requires i < |c.bK| && j < |c.bK| && c.bK[i] in done && c.bK[j] in done
    requires SlotOf(c, i, valB[c.bK[i]]) == SlotOf(c, j, valB[c.bK[j]])
    ensures i == j
  {
  }

  /** All keys have distinct final hashes. */
  ghost predicate PerfectOn(c: Coords, valB: seq<nat>)
    requires Good(c) && Values(c, valB)
  {
    forall i, j :: 0 <= i < j < |c.bK| ==> SlotOf(c, i, valB[c.bK[i]]) != SlotOf(c, j, valB[c.bK[j]])
  }

  /** Some keys are placed, and for one more b no value puts its keys on free slots. */
  ghost predicate StuckAt(c: Coords, blen: nat, tabh: seq<int>, valB: seq<nat>, done: set<nat>, item: nat) {
    && HashTable(c, tabh) && Values(c, valB) && |valB| == blen && item < blen && item !in done
    && Placed(c, tabh, valB, done) && LeastFree(c, tabh, item, 256)
  }

  ghost predicate Stuck(c: Coords, blen: nat) {
    exists tabh, valB, done, item :: StuckAt(c, blen, tabh, valB, done, item)
  }

  /** Once every b that has keys is done, the hash is perfect. */
  lemma AllPlaced(c: Coords, tabh: seq<int>, valB: seq<nat>, nextB: seq<int>, listB: seq<int>, lenB: seq<nat>,
                  done: set<nat>)
    requires HashTable(c, tabh) && Values(c, valB) && Placed(c, tabh, valB, done)
    requires Threaded(c.bK, nextB, listB, lenB, |c.bK|) && |lenB| == |valB|
    requires forall b: nat :: b in done <==> b < |valB| && lenB[b] > 0
    ensures PerfectOn(c, valB)
  {
    hide Xor, Pow2, LastBefore, CountOf;
    forall j | 0 <= j < |c.bK| ensures c.bK[j] in done {
      assert lenB[c.bK[j]] == CountOf(c.bK, c.bK[j], |c.bK|);
    }
    forall i, j | 0 <= i < j < |c.bK|
      ensures SlotOf(c, i, valB[c.bK[i]]) != SlotOf(c, j, valB[c.bK[j]])
    {
      if SlotOf(c, i, valB[c.bK[i]]) == SlotOf(c, j, valB[c.bK[j]]) {
        PlacedIsInjective(c, tabh, valB, done, i, j);
      }
    }
  }

  /** The coordinates of names under a salt. */
  ghost function CoordsOf(names: seq<Name>, scramble: seq<nat>, k: nat, salt: U64, loga: nat, logb: nat): Coords
    requires loga <= 64
  {
    Coords(seq(|names|, i requires 0 <= i < |names| => CoordA(Hash(names[i], salt), loga)),
           seq(|names|, i requires 0 <= i < |names| => Low(Hash(names[i], salt), logb)),
           scramble, k)
  }

  /** One try of the search: the salt is si times the golden ratio. */
  datatype Try = Try(si: nat, alen: nat, blen: nat) {
    function Salt(): U64 { (si * GOLDEN) % M64 }

    /** The coordinates of the names in this try. */
    ghost function Of(names: seq<Name>, scramble: seq<nat>, k: nat): Coords
      requires alen > 0 && blen > 0 && Log2(alen) <= 64
    {
      CoordsOf(names, scramble, k, Salt(), Log2(alen), Log2(blen))
    }

    /** No two names share their coordinates. */
    ghost predicate Distinct(names: seq<Name>, scramble: seq<nat>, k: nat)
      requires alen > 0 && blen > 0 && Log2(alen) <= 64
    {
      var c := Of(names, scramble, k);
      DistinctPairs(c.aK, c.bK, |c.aK|)
    }

    /** Why a try fails: two names share their coordinates, or the greedy mapping gets stuck. */
    ghost predicate Fails(names: seq<Name>, scramble: seq<nat>, k: nat) {
      && alen > 0 && blen > 0 && Log2(alen) <= 64
      && (!Distinct(names, scramble, k) || Stuck(Of(names, scramble, k), blen))
    }
  }

  /** A try with the largest blen got stuck on names with distinct coordinates. */
  ghost predicate GivesUpWith(names: seq<Name>, k: nat, last: Try) {
    && last.Fails(names, ScrambleSpec(k), k) && last.Distinct(names, ScrambleSpec(k), k)
    && last.blen >= Pow2(k)
  }

  /** The schedule of a search for these names. */
  function SearchAfter(smax: nat, nkeys: nat, verdicts: seq<bool>): Search {
    After(smax, SearchSchedule.First(InitialBlen(smax, nkeys)), verdicts)
  }

  function Scheduled(smax: nat, nkeys: nat, verdicts: seq<bool>): Try {
    var s := SearchAfter(smax, nkeys, verdicts);
    Try(s.si, smax, s.blen)
  }

  /** A try that failed with the given verdict: the one that the schedule asks for after earlier
      verdicts. */
  ghost predicate FailedTry(names: seq<Name>, k: nat, smax: nat, t: Try, earlier: seq<bool>, distinct: bool) {
    && t == Scheduled(smax, |names|, earlier)
    && t.Fails(names, ScrambleSpec(k), k) && (distinct <==> t.Distinct(names, ScrambleSpec(k), k))
  }

  ghost predicate Failed(names: seq<Name>, k: nat, smax: nat, tried: seq<Try>, verdicts: seq<bool>) {
    && |verdicts| == |tried|
    && forall i :: 0 <= i < |tried| ==> FailedTry(names, k, smax, tried[i], verdicts[..i], verdicts[i])
  }

  /** None of the first n tries ended the search. */
  ghost predicate GoesOn(smax: nat, nkeys: nat, verdicts: seq<bool>, n: nat)
    requires n <= |verdicts|
  {
    forall i :: 0 <= i < n ==> !Over(smax, SearchAfter(smax, nkeys, verdicts[..i]), verdicts[i])
  }

  lemma Prefixes(v: seq<bool>, distinct: bool)
    ensures forall i :: 0 <= i < |v| ==> (v + [distinct])[..i] == v[..i]
    ensures (v + [distinct])[..|v|] == v
  {
  }

  lemma FailedNext(names: seq<Name>, k: nat, smax: nat, tried: seq<Try>, verdicts: seq<bool>, t: Try, distinct: bool)
    requires Failed(names, k, smax, tried, verdicts) && FailedTry(names, k, smax, t, verdicts, distinct)
    ensures Failed(names, k, smax, tried + [t], verdicts + [distinct])
  {
    hide FailedTry;
    Prefixes(verdicts, distinct);
  }

  lemma GoesOnNext(smax: nat, nkeys: nat, verdicts: seq<bool>, distinct: bool)
    requires GoesOn(smax, nkeys, verdicts, |verdicts|)
    ensures var verdicts', s := verdicts + [distinct], SearchAfter(smax, nkeys, verdicts);
            && SearchAfter(smax, nkeys, verdicts') == Advance(smax, s, distinct)
            && GoesOn(smax, nkeys, verdicts', |verdicts|) && verdicts'[..|verdicts|] == verdicts
            && (GoesOn(smax, nkeys, verdicts', |verdicts'|) <==> !Over(smax, s, distinct))
  {
    hide Over, Advance, After, InitialBlen;
    Prefixes(verdicts, distinct);
    AfterSnoc(smax, SearchSchedule.First(InitialBlen(smax, nkeys)), verdicts, distinct);
  }

  lemma NoneFailed(names: seq<Name>, k: nat, smax: nat)
    ensures Failed(names, k, smax, [], []) && GoesOn(smax, |names|, [], 0)
    ensures SearchAfter(smax, |names|, []) == SearchSchedule.First(InitialBlen(smax, |names|))
  {
  }

  datatype QStuff = QStuff(b: int, parent: nat, newval: nat, oldval: nat)

  /** The entries of the path from c to the root are in range. */
  ghost predicate PathOk(tabq: seq<QStuff>, blen: nat, c: nat)
    decreases c
  {
    c == 0 ||
    (c < |tabq| && tabq[c].parent < c && tabq[c].newval < 256 && tabq[c].oldval < 256
     && 0 <= tabq[tabq[c].parent].b < blen && PathOk(tabq, blen, tabq[c].parent))
  }

  /** The bs whose values a path changes. */
  ghost function Path(tabq: seq<QStuff>, blen: nat, c: nat): set<nat>
    requires PathOk(tabq, blen, c)
    decreases c
  {
    if c == 0 then {} else {tabq[tabq[c].parent].b} + Path(tabq, blen, tabq[c].parent)
  }

  /** The values after a path is applied. */
  ghost function NewVals(tabq: seq<QStuff>, vals: seq<nat>, c: nat): seq<nat>
    requires PathOk(tabq, |vals|, c)
    decreases c
  {
    if c == 0 then vals
    else NewVals(tabq, vals[tabq[tabq[c].parent].b := tabq[c].newval], tabq[c].parent)
  }

  /** The path records the old values, and of its bs the root alone is not mapped yet. */
  ghost predicate Recorded(tabq: seq<QStuff>, vals: seq<nat>, done: set<nat>, c: nat)
    requires PathOk(tabq, |vals|, c)
    decreases c
  {
    c == 0 ||
    (var parent := tabq[c].parent;
     var pb := tabq[parent].b;
     tabq[c].oldval == vals[pb] && (parent == 0 <==> pb !in done) && Recorded(tabq, vals, done, parent))
  }

  /** A path of one edge, from the root. */
  lemma OneEdgePath(tabq: seq<QStuff>, vals: seq<nat>, done: set<nat>, c: nat, item: nat)
    requires 0 < c < |tabq| && tabq[c].parent == 0 && tabq[c].newval < 256
    requires tabq[0].b == item < |vals| && item !in done
    requires tabq[c].oldval == vals[item] < 256
    ensures PathOk(tabq, |vals|, c) && Path(tabq, |vals|, c) == {item} && Recorded(tabq, vals, done, c)
    ensures NewVals(tabq, vals, c) == vals[item := tabq[c].newval]
  {
    assert PathOk(tabq, |vals|, 0) && Path(tabq, |vals|, 0) == {} && Recorded(tabq, vals, done, 0);
    assert NewVals(tabq, vals[item := tabq[c].newval], 0) == vals[item := tabq[c].newval];
  }

  class Builder {
    const names: seq<Name>
    const smax: nat
    ghost const logS: nat
    var scramble: seq<nat>
    // struct key
    var aK: seq<nat>
    var bK: seq<nat>
    var nextB: seq<int>
    // struct bstuff
    var valB: seq<nat>
    var listB: seq<int>
    var lenB: seq<nat>
    var waterB: seq<nat>
    // hstuff, qstuff
    var tabh: seq<int>
    var tabq: seq<QStuff>

    constructor (names: seq<Name>, smax: nat, ghost logS: nat)
      requires smax == Pow2(logS)
      ensures this.names == names && this.smax == smax && this.logS == logS
    {
      this.names, this.smax, this.logS := names, smax, logS;
      scramble, aK, bK, nextB := [], [], [], [];
      valB, listB, lenB, waterB := [], [], [], [];
      tabh, tabq := [], [];
    }

    ghost predicate Hashed()
      reads this
    {
      && smax == Pow2(logS) && logS <= 31
      && |aK| == |bK| == |nextB| == |names|
      && |valB| == |listB| == |lenB| == |waterB| == |tabq| - 1
      && 0 < |valB|
      && AllBelow(aK, smax) && AllBelow(bK, |valB|)
      && |scramble| == 256 && AllBelow(scramble, smax)
    }

    /** The inner loop of `inittab`: does an earlier key of the same list share key i's a? */
    method HasTwin(i: nat) returns (twin: bool)
      requires Hashed() && i < |aK| && Threaded(bK, nextB, listB, lenB, i)
      ensures twin <==> exists j :: 0 <= j < i && bK[j] == bK[i] && aK[j] == aK[i]
    {
      var other := listB[bK[i]];
      while other >= 0
        invariant -1 <= other < i
        invariant other >= 0 ==> bK[other] == bK[i]
        invariant forall j :: other < j < i && bK[j] == bK[i] ==> aK[j] != aK[i]
        decreases other
      {
        if aK[i] == aK[other] {
          return true;
        }
        other := nextB[other];
      }
      twin := false;
    }

    /** The end of `inittab`'s loop body: key i becomes the head of its list. */
    method PushKey(i: nat)
      requires Hashed() && i < |aK| && Threaded(bK, nextB, listB, lenB, i)
      modifies this`nextB, this`listB, this`lenB
      ensures Hashed() && Threaded(bK, nextB, listB, lenB, i + 1)
    {
      hide AllBelow, Pow2, LastBefore, CountOf;
      var b := bK[i];
      assert b < |listB| by { BelowAt(bK, |valB|, i); }
      ThreadOne(bK, nextB, listB, lenB, i);
      lenB := lenB[b := lenB[b] + 1];
      nextB := nextB[i := listB[b]];
      listB := listB[b := i];
    }

    /** `inittab`: threads the keys; TRUE iff no two keys share (a,b). Unless `complete` is set it
        stops at the first pair that does. */
    method InitTab(complete: bool) returns (nocollision: bool)
      requires Hashed()
      modifies this`nextB, this`valB, this`listB, this`lenB, this`waterB
      ensures Hashed() && |valB| == old(|valB|) && AllBelow(valB, 256)
      ensures nocollision <==> DistinctPairs(aK, bK, |aK|)
      ensures nocollision || complete ==> Threaded(bK, nextB, listB, lenB, |bK|)
    {
      hide AllBelow, Pow2, Threaded;
      var blen := |valB|;
      valB := seq(blen, _ => 0);
      listB := seq(blen, _ => -1);
      lenB := seq(blen, _ => 0);
      waterB := seq(blen, _ => 0);
      ThreadNone(bK, nextB, listB, lenB);
      ZerosBelow(valB, 256);
      nocollision := true;
      for i := 0 to |aK|
        invariant Hashed() && |valB| == blen && AllBelow(valB, 256)
        invariant nocollision <==> DistinctPairs(aK, bK, i)
        invariant Threaded(bK, nextB, listB, lenB, i)
      {
        var twin := HasTwin(i);
        if twin {
          nocollision := false;
          if !complete {
            return;
          }
        }
        PushKey(i);
      }
    }

    // ---------------------------------------------------------------- placing keys

    ghost function C(): Coords
      reads this
    {
      Coords(aK, bK, scramble, logS)
    }

    /** The slot computation of the code. */
    method Slot(j: nat, v: nat) returns (h: nat)
      requires Hashed() && j < |aK| && v < 256
      ensures Good(C()) && h == SlotOf(C(), j, v) < smax
    {
      h := Xor(aK[j], scramble[v]);
    }

    /** The keys are hashed and threaded without collision; tabh points to keys. */
    ghost predicate Ready()
      reads this
    {
      && Hashed()
      && AllBelow(valB, 256)
      && DistinctPairs(aK, bK, |aK|)
      && Threaded(bK, nextB, listB, lenB, |bK|)
      && HashTable(C(), tabh)
    }

    /** `augment`'s walk over the item's keys for one value i: it stops early at a second child or
        at a child already explored, else it reports the one child it hit, or -1. */
    method Walk(item: nat, i: nat, highwater: nat) returns (stopped: bool, childb: int)
      requires Ready() && item < |valB| && i < 256
      ensures Free(C(), tabh, item, i) <==> !stopped && childb == -1
      ensures !stopped && childb != -1 ==>
                && 0 <= childb < |valB| && waterB[childb] != highwater
                && (Absent(C(), tabh, item) ==> childb != item)
    {
      hide Xor, Pow2, CountOf, LastBefore;
      childb := -1;
      var mykey := listB[item];
      while mykey >= 0
        invariant -1 <= mykey < |bK|
        invariant mykey >= 0 ==> bK[mykey] == item
        invariant childb == -1 ==> forall j :: mykey < j < |bK| && bK[j] == item ==> tabh[SlotOf(C(), j, i)] == -1
        invariant childb != -1 ==>
                    && 0 <= childb < |valB| && waterB[childb] != highwater && !Free(C(), tabh, item, i)
                    && (Absent(C(), tabh, item) ==> childb != item)
        decreases mykey
      {
        var h := Slot(mykey, i);
        // h < smax == highhash, so the out-of-bounds exit is never taken.
        var childkey := tabh[h];
        if childkey >= 0 {
          var hitb := bK[childkey];
          if childb != -1 {
            if childb != hitb {
              return true, childb;
            }
          } else {
            childb := hitb;
            if waterB[childb] == highwater {
              return true, childb;
            }
          }
        }
        mykey := nextB[mykey];
      }
      stopped := false;
    }

    /** `apply`'s first loop: takes the keys of pb off the slots they hold. */
    method EraseOld(pb: nat)
      requires Ready() && pb < |valB|
      modifies this`tabh
      ensures Ready() && HashTable(C(), old(tabh)) && Erased(C(), old(tabh), tabh, pb, valB[pb])
    {
      hide Xor, Pow2, CountOf, LastBefore, DistinctPairs;
      ghost var c, was := C(), tabh;
      var v, table := valB[pb], tabh;
      var mykey := listB[pb];
      while mykey >= 0
        invariant -1 <= mykey < |bK| && |table| == |was|
        invariant mykey >= 0 ==> bK[mykey] == pb
        invariant forall s :: 0 <= s < |table| ==>
                    table[s] == if was[s] > mykey && bK[was[s]] == pb && SlotOf(c, was[s], v) == s then -1 else was[s]
        decreases mykey
      {
        var h := Slot(mykey, v);
        if mykey == table[h] {
          table := table[h := -1];
        }
        mykey := nextB[mykey];
      }
      tabh := table;
    }

    /** `apply`'s second loop: puts the keys of pb on the slots of its new value, or stops at a slot
        that is taken. Rolling back, it takes every slot, but places no key of the root. */
    method PlaceNew(pb: nat, rollback: bool, parent: nat) returns (ok: bool)
      requires Ready() && pb < |valB|
      modifies this`tabh
      ensures Ready() && HashTable(C(), old(tabh)) && Moved(C(), old(tabh), tabh, pb, valB[pb])
      ensures !rollback ==> KeepsTaken(old(tabh), tabh) && (ok <==> Free(C(), old(tabh), pb, valB[pb]))
      ensures rollback ==> ok
      ensures ok && (!rollback || parent != 0) ==> AllOn(C(), tabh, pb, valB[pb], -1)
      ensures rollback && parent == 0 ==> tabh == old(tabh)
    {
      hide Xor, Pow2, CountOf, LastBefore, DistinctPairs, PlacedAbove, Moved, AllOn, Free, KeepsTaken;
      ghost var c, was := C(), tabh;
      var v, table := valB[pb], tabh;
      var mykey := listB[pb];
      PlaceNone(c, was, pb, v, mykey);
      PlacedAboveParts(c, was, table, pb, v, mykey);
      while mykey >= 0
        invariant -1 <= mykey < |bK| && HashTable(c, table)
        invariant mykey >= 0 ==> bK[mykey] == pb
        invariant !rollback ==> PlacedAbove(c, was, table, pb, v, mykey)
        invariant Moved(c, was, table, pb, v)
        invariant rollback && parent != 0 ==> AllOn(c, table, pb, v, mykey)
        invariant rollback && parent == 0 ==> table == was
        decreases mykey
      {
        var h := Slot(mykey, v);
        if !rollback {
          NotTaken(c, was, table, pb, v, mykey);
          PlacedAboveParts(c, was, table, pb, v, mykey);
          if table[h] >= 0 {
            tabh := table;
            return false;
          }
          PlaceOne(c, was, table, pb, v, mykey, nextB[mykey]);
          table := table[h := mykey];
          PlacedAboveParts(c, was, table, pb, v, nextB[mykey]);
        } else if parent != 0 {
          RestoreOne(c, was, table, pb, v, mykey, nextB[mykey]);
          table := table[h := mykey];
        }
        mykey := nextB[mykey];
      }
      if !rollback { PlaceDone(c, was, table, pb, v); }
      tabh := table;
      ok := true;
    }

    /** The tables from which a path can be applied, or rolled back to: the bs in `done` are mapped
        and the path is recorded. */
    ghost predicate Sound(tail: nat, rollback: bool, was: seq<int>, vals: seq<nat>, done: set<nat>)
      requires Ready() && 1 <= tail <= |tabq| && PathOk(tabq, |valB|, tail - 1)
      reads this
    {
      && HashTable(C(), was) && |vals| == |valB| && Values(C(), vals) && Placed(C(), was, vals, done)
      && Recorded(tabq, vals, done, tail - 1)
      && if rollback then Settling(C(), was, vals, tabh, valB, Path(tabq, |valB|, tail - 1))
         else tabh == was && valB == vals
    }

    /** `apply`: walks from the last entry of the queue to the root, giving each parent its new value
        and moving its keys; at a collision it rolls back and fails. All or nothing: success maps
        every b of the path, the root included, and keeps all other keys placed; failure, through
        the rollback, leaves tabh and every value as they were. */
    method Apply(tail: nat, rollback: bool, ghost was: seq<int>, ghost vals: seq<nat>, ghost done: set<nat>)
      returns (ok: bool)
      requires Ready() && 1 <= tail <= |tabq| && PathOk(tabq, |valB|, tail - 1)
      modifies this`tabh, this`valB
      ensures Ready() && |valB| == old(|valB|) && (rollback ==> ok)
      ensures old(Sound(tail, rollback, was, vals, done)) && (rollback || !ok) ==> tabh == was && valB == vals
      ensures old(Sound(tail, rollback, was, vals, done)) && !rollback && ok ==>
                && valB == NewVals(tabq, vals, tail - 1)
                && Placed(C(), tabh, valB, done + Path(tabq, |valB|, tail - 1))
      ensures old(Sound(tail, rollback, was, vals, done)) && !rollback && old(OneEdge(tail)) ==> ok
      decreases !rollback
    {
      hide Xor, Pow2, CountOf, LastBefore, Threaded, DistinctPairs, Placed, Settling, Erased, Moved, AllOn, KeepsTaken,
        Free, Good, SlotOf;
      ghost var sound, path := Sound(tail, rollback, was, vals, done), Path(tabq, |valB|, tail - 1);
      ghost var oneEdge := OneEdge(tail);
      ghost var mapped: set<nat> := done;
      if sound && !rollback { SettlingStart(C(), was, vals, path); }
      var child := tail - 1;
      while child != 0
        invariant child <= tail - 1 && PathOk(tabq, |valB|, child) && Ready() && |valB| == old(|valB|)
        invariant Path(tabq, |valB|, child) <= path
        invariant sound ==> Recorded(tabq, vals, done, child)
        invariant sound && rollback ==> Settling(C(), was, vals, tabh, valB, Path(tabq, |valB|, child))
        invariant sound && !rollback ==>
                    && Settling(C(), was, vals, tabh, valB, path)
                    && Placed(C(), tabh, valB, mapped) && mapped + Path(tabq, |valB|, child) == done + path
                    && NewVals(tabq, valB, child) == NewVals(tabq, vals, tail - 1)
        invariant sound && !rollback && oneEdge ==> child == 0 || (child == tail - 1 && tabh == was && valB == vals)
        decreases child
      {
        var parent := tabq[child].parent;
        ghost var pb, before, bvals := tabq[parent].b, tabh, valB;
        ghost var erased;
        ok, erased := MoveKeys(child, rollback);
        if sound && rollback {
          MoveBack(C(), was, vals, before, erased, tabh, bvals, Path(tabq, |valB|, parent), pb, done);
        } else if sound {
          if oneEdge { EraseNothing(C(), before, erased, bvals, done, pb); }
          MoveForth(C(), was, vals, before, erased, tabh, bvals, path, pb, tabq[child].newval, mapped, ok);
        }
        if !ok {
          var undone := Apply(tail, true, was, vals, done);
          return;
        }
        mapped := mapped + {pb};
        child := parent;
      }
      if sound && rollback { SettlingEnd(C(), was, vals, tabh, valB); }
      assert mapped + {} == mapped;
      ok := true;
    }

    /** One iteration of `apply`: take the keys of the parent off, change its value, put them on. */
    method MoveKeys(child: nat, rollback: bool) returns (ok: bool, ghost erased: seq<int>)
      requires Ready() && 0 < child && PathOk(tabq, |valB|, child)
      modifies this`tabh, this`valB
      ensures var parent := tabq[child].parent;
              var pb := tabq[parent].b;
              var v := if rollback then tabq[child].oldval else tabq[child].newval;
              && Ready() && valB == old(valB)[pb := v] && (rollback ==> ok)
              && HashTable(C(), old(tabh)) && HashTable(C(), erased)
              && Erased(C(), old(tabh), erased, pb, old(valB)[pb])
              && Moved(C(), erased, tabh, pb, v)
              && (!rollback ==> KeepsTaken(erased, tabh) && (ok <==> Free(C(), erased, pb, v)))
              && (ok && (!rollback || parent != 0) ==> AllOn(C(), tabh, pb, v, -1))
              && (rollback && parent == 0 ==> tabh == erased)
    {
      hide Xor, Pow2, CountOf, LastBefore, Threaded, DistinctPairs, Erased, Moved, AllOn, KeepsTaken, Free, Good,
        SlotOf;
      var parent := tabq[child].parent;
      var pb := tabq[parent].b;
      EraseOld(pb);
      erased := tabh;
      valB := valB[pb := if rollback then tabq[child].oldval else tabq[child].newval];
      ok := PlaceNew(pb, rollback, parent);
    }

    /** The last entry of the queue hangs from the root, and its value puts the root's keys on free
        slots. */
    ghost predicate OneEdge(tail: nat)
      requires Ready() && 1 <= tail <= |tabq|
      reads this
    {
      && tail > 1 && tabq[tail - 1].parent == 0 && tabq[tail - 1].newval < 256 && tabq[0].b >= 0
      && Free(C(), tabh, tabq[0].b, tabq[tail - 1].newval)
    }

    /** `augment`'s loop over the values for the root of the spanning tree. */
    method TryValues(item: nat, highwater: nat, ghost done: set<nat>) returns (ok: bool, tail: nat, ghost i: nat)
      requires Ready() && item < |valB| && Placed(C(), tabh, valB, done) && item !in done && tabq[0].b == item
      modifies this`tabh, this`valB, this`waterB, this`tabq
      ensures Ready() && |tabq| == old(|tabq|) && 1 <= tail <= |tabq|
      ensures HashTable(C(), old(tabh)) && LeastFree(C(), old(tabh), item, i) && (ok <==> i < 256)
      ensures ok ==> valB == old(valB)[item := i] && Placed(C(), tabh, valB, done + {item})
      ensures !ok ==> valB == old(valB) && tabh == old(tabh)
    {
      hide Xor, Pow2, Threaded, DistinctPairs, AllBelow, Placed, Free, SlotOf, Good, Absent, PathOk, Path, NewVals,
        Recorded;
      NotPlacedIsAbsent(C(), tabh, valB, done, item);
      BelowAt(valB, 256, item);
      ghost var blen, was, vals := |valB|, tabh, valB;
      tail := 1;
      ghost var marked: set<nat> := {};
      for v := 0 to 256
        invariant Ready() && |valB| == blen
        invariant tabh == was && valB == vals && |tabq| == blen + 1
        invariant forall i' :: 0 <= i' < v ==> !Free(C(), was, item, i')
        invariant tabq[0].b == item
        invariant |marked| == tail - 1 && forall b :: b in marked ==> b < blen && b != item && waterB[b] == highwater
        invariant 1 <= tail <= |tabq|
      {
        var stopped, childb := Walk(item, v, highwater);
        if !stopped {
          MarkedFits(marked, item, blen);
          if childb != -1 {
            waterB := waterB[childb := highwater];
            marked := marked + {childb};
          }
          tabq := tabq[tail := QStuff(childb, 0, v, valB[item])];
          tail := tail + 1;
          if childb == -1 {
            OneEdgePath(tabq, vals, done, tail - 1, item);
            ok := Apply(tail, false, was, vals, done);
            i := v;
            return;
          }
        }
      }
      ok, i := false, 256;
    }

    /** `augment`: greedy, because the walk of the spanning tree stops after the root. */
    method Augment(item: nat, highwater: nat, ghost done: set<nat>) returns (ok: bool, ghost i: nat)
      requires Ready() && item < |valB| && Placed(C(), tabh, valB, done) && item !in done
      modifies this`tabh, this`valB, this`waterB, this`tabq
      ensures Ready() && |tabq| == old(|tabq|)
      ensures HashTable(C(), old(tabh)) && LeastFree(C(), old(tabh), item, i) && (ok <==> i < 256)
      ensures ok ==> valB == old(valB)[item := i] && Placed(C(), tabh, valB, done + {item})
      ensures !ok ==> valB == old(valB) && tabh == old(tabh)
    {
      hide Xor, Pow2, Threaded, DistinctPairs, AllBelow, Placed, Free;
      tabq := tabq[0 := tabq[0].(b := item)];
      var tail, q := 1, 0;
      i := 256;
      while q < tail
        invariant 0 <= q <= 1 && Ready() && |tabq| == old(|tabq|)
        invariant q == 0 ==> tabq[0].b == item
        invariant valB == old(valB) && tabh == old(tabh)
        invariant q == 1 ==> LeastFree(C(), tabh, item, 256)
        invariant 1 <= tail
        decreases 1 - q
      {
        if q == 1 {
          break;
        }
        ok, tail, i := TryValues(item, highwater, done);
        if ok {
          return;
        }
        q := q + 1;
      }
      ok, i := false, 256;
    }

    // ---------------------------------------------------------------- the search

    /** The inner loop of `perfect`: maps all bs with exactly j keys. */
    method Layer(j: nat, ghost before: set<nat>) returns (ok: bool, ghost done: set<nat>)
      requires Ready() && Placed(C(), tabh, valB, before)
      requires forall b: nat :: b in before <==> b < |valB| && lenB[b] > j
      modifies this`tabh, this`tabq, this`valB, this`waterB
      ensures Ready() && |valB| == old(|valB|) && |tabq| == old(|tabq|)
      ensures ok ==> forall b: nat :: b in done <==> b < |valB| && lenB[b] >= j
      ensures ok ==> Placed(C(), tabh, valB, done)
      ensures !ok ==> Stuck(C(), |valB|)
      ensures |names| == 1 ==> ok
    {
      hide Xor, Pow2, AllBelow, Threaded, DistinctPairs, Placed, Free, SlotOf;
      done := before;
      for i := 0 to |valB|
        invariant Ready() && |valB| == old(|valB|) && |tabq| == old(|tabq|)
        invariant forall b: nat :: b in done <==> b < |valB| && (lenB[b] > j || (lenB[b] == j && b < i))
        invariant Placed(C(), tabh, valB, done)
      {
        if lenB[i] == j {
          if |names| == 1 { LoneKeyFree(C(), tabh, valB, done, i); }
          ghost var v;
          ok, v := Augment(i, i + 1, done);
          if !ok {
            assert StuckAt(C(), |valB|, tabh, valB, done, i);
            return;
          }
          done := done + {i};
        }
      }
      ok := true;
    }

    /** The first loop of `perfect`: the maximum number of keys for any b. */
    method MaxKeys() returns (maxkeys: nat)
      requires Hashed()
      ensures forall b :: 0 <= b < |lenB| ==> lenB[b] <= maxkeys
    {
      maxkeys := 0;
      for i := 0 to |valB|
        invariant forall b :: 0 <= b < i ==> lenB[b] <= maxkeys
      {
        if lenB[i] > maxkeys { maxkeys := lenB[i]; }
      }
    }

    /** `perfect`: maps the bs in descending order of their number of keys. */
    method Perfect() returns (ok: bool)
      requires Hashed() && AllBelow(valB, 256) && DistinctPairs(aK, bK, |aK|)
      requires Threaded(bK, nextB, listB, lenB, |bK|)
      modifies this`tabh, this`tabq, this`valB, this`waterB
      ensures Ready() && |valB| == old(|valB|) && |tabq| == old(|tabq|)
      ensures ok ==> PerfectOn(C(), valB)
      ensures !ok ==> Stuck(C(), |valB|)
      ensures |names| == 1 ==> ok
    {
      hide Xor, Pow2, AllBelow, Threaded, DistinctPairs;
      tabh := seq(smax, _ => -1);
      tabq := seq(|valB| + 1, _ => QStuff(-1, 0, 0, 0));
      var j := MaxKeys();
      ghost var done: set<nat> := {};
      assert Ready() && Placed(C(), tabh, valB, done);
      hide Placed;
      while j > 0
        invariant Ready() && |valB| == old(|valB|) && |tabq| == old(|tabq|)
        invariant forall b: nat :: b in done <==> b < |valB| && lenB[b] > j
        invariant Placed(C(), tabh, valB, done)
      {
        ok, done := Layer(j, done);
        if !ok { return; }
        j := j - 1;
      }
      AllPlaced(C(), tabh, valB, nextB, listB, lenB, done);
      ok := true;
    }

    /** The coordinates of every key are the ones its name hashes to. */
    ghost predicate FromNames(salt: U64, loga: nat, logb: nat)
      requires loga <= 64
      reads this
    {
      && |aK| == |bK| == |names|
      && forall i {:trigger aK[i]} {:trigger bK[i]} :: 0 <= i < |names| ==>
           aK[i] == CoordA(Hash(names[i], salt), loga) && bK[i] == Low(Hash(names[i], salt), logb)
    }

    /** `initnorm`. */
    method InitNorm(alen: nat, blen: nat, salt: U64, ghost loga: nat, ghost logb: nat)
      requires alen == Pow2(loga) && blen == Pow2(logb) && loga <= 64
      modifies this`aK, this`bK, this`nextB
      ensures FromNames(salt, loga, logb) && |nextB| == |names|
      ensures AllBelow(aK, alen) && AllBelow(bK, blen)
    {
      hide Pow2, Hash, Shr, Low, And;
      var log := Log2u(alen);
      Log2uExact(loga, log);
      aK, bK, nextB := [], [], [];
      for i := 0 to |names|
        invariant |aK| == |bK| == |nextB| == i
        invariant forall j {:trigger aK[j]} {:trigger bK[j]} :: 0 <= j < i ==>
                    aK[j] == CoordA(Hash(names[j], salt), loga) && bK[j] == Low(Hash(names[j], salt), logb)
        invariant AllBelow(aK, alen) && AllBelow(bK, blen)
      {
        var h := Lookup8(names[i], salt);
        CoordBounds(h, loga, logb);
        aK := aK + [if log > 0 then Shr(h, 64 - log) else 0];
        bK := bK + [if blen > 1 then And(h, blen - 1) else 0];
        nextB := nextB + [-1];
      }
    }

    /** `resize` of tabb and tabq. */
    method Resize(blen: nat)
      modifies this`valB, this`listB, this`lenB, this`waterB, this`tabq
      ensures |valB| == |listB| == |lenB| == |waterB| == blen && |tabq| == blen + 1
    {
      valB, listB := seq(blen, _ => 0), seq(blen, _ => -1);
      lenB, waterB := seq(blen, _ => 0), seq(blen, _ => 0);
      tabq := seq(blen + 1, _ => QStuff(-1, 0, 0, 0));
    }

    /** Sizes of the working tables between two trials. */
    ghost predicate Sized(alen: nat, blen: nat)
      reads this
    {
      && smax == Pow2(logS) && logS <= 31
      && IsPow2(alen) && alen <= smax && (smax > 1 ==> alen > 1) && IsPow2(blen)
      && |valB| == |listB| == |lenB| == |waterB| == blen && |tabq| == blen + 1
      && |scramble| == 256 && AllBelow(scramble, smax)
    }

    /** What a successful search leaves behind. */
    ghost predicate Solved(alen: nat, salt: U64)
      reads this
    {
      && IsPow2(alen) && alen <= smax && (smax > 1 ==> alen > 1) && IsPow2(|valB|)
      && Ready() && PerfectOn(C(), valB) && Log2(alen) <= 64
      && FromNames(salt, Log2(alen), Log2(|valB|))
    }

    /** Equal names have equal coordinates. */
    lemma DistinctNames(salt: U64, loga: nat, logb: nat)
      requires loga <= 64 && FromNames(salt, loga, logb) && DistinctPairs(aK, bK, |aK|)
      ensures NoTwice(names)
    {
      hide Hash, CoordA, Low;
      forall i, j | 0 <= i < j < |names| ensures names[i] != names[j] {
        assert aK[i] != aK[j] || bK[i] != bK[j];
      }
    }

    lemma CoordsFromNames(salt: U64, loga: nat, logb: nat)
      requires loga <= 64 && FromNames(salt, loga, logb) && |aK| == |bK| == |names|
      ensures C() == CoordsOf(names, scramble, logS, salt, loga, logb)
    {
      hide Hash, CoordA, Low;
      var c := CoordsOf(names, scramble, logS, salt, loga, logb);
      assert aK == c.aK && bK == c.bK;
    }

    /** One trial with one salt: distinct (a,b), then a perfect hash. */
    method Trial(alen: nat, blen: nat, si: nat) returns (distinct: bool, perfect: bool)
      requires Sized(alen, blen)
      modifies this`aK, this`bK, this`nextB, this`valB, this`listB, this`lenB, this`waterB, this`tabh, this`tabq
      ensures Sized(alen, blen) && Log2(alen) <= 64
      ensures perfect ==> distinct && Solved(alen, Try(si, alen, blen).Salt())
      ensures alen > 0 && blen > 0 && (distinct <==> Try(si, alen, blen).Distinct(names, scramble, logS))
      ensures !perfect ==> Try(si, alen, blen).Fails(names, scramble, logS)
      ensures distinct ==> NoTwice(names)
      ensures |names| == 1 ==> perfect
    {
      hide Pow2, BitLen, AllBelow, Threaded, DistinctPairs, Hash, Low, CoordA, Stuck, CoordsOf;
      LogSmall(alen, logS);
      var salt := (si * GOLDEN) % M64;
      InitNorm(alen, blen, salt, Log2(alen), Log2(blen));
      AllBelowMore(aK, alen, smax);
      CoordsFromNames(salt, Log2(alen), Log2(blen));
      distinct := InitTab(false);
      if |names| == 1 { OneKeyDistinct(aK, bK); }
      if distinct {
        DistinctNames(salt, Log2(alen), Log2(blen));
      }
      perfect := false;
      if distinct {
        perfect := Perfect();
      }
    }

    /** `findhash`, with a bound on the number of salts tried. It tries what the schedule asks for;
        every try that is passed over fails, for two names share their coordinates or the greedy
        mapping gets stuck; it gives up exactly at the try that ends the schedule. Whatever the bound,
        a list with a repeated name exhausts it: the code's loop never ends on such a list. */
    method FindHash(fuel: nat)
      returns (status: Status, alen: nat, salt: U64, ghost tried: seq<Try>, ghost verdicts: seq<bool>)
      requires smax == Pow2(logS) && logS <= 31
      modifies this
      ensures Failed(names, logS, smax, tried, verdicts)
      ensures alen == smax
      ensures status == Found ==>
                && Solved(alen, salt) && scramble == ScrambleSpec(logS)
                && Scheduled(smax, |names|, verdicts) == Try(SearchAfter(smax, |names|, verdicts).si, alen, |valB|)
                && salt == Scheduled(smax, |names|, verdicts).Salt()
      ensures status == OutOfFuel ==> |tried| == fuel
      ensures status != GaveUp ==> |verdicts| == |tried| && GoesOn(smax, |names|, verdicts, |tried|)
      ensures status == GaveUp ==>
                && var n := |tried| - 1;
                && n >= 0 && |verdicts| == |tried| && GoesOn(smax, |names|, verdicts, n)
                && Over(smax, SearchAfter(smax, |names|, verdicts[..n]), verdicts[n])
                && GivesUpWith(names, logS, tried[n])
      ensures !NoTwice(names) ==> status == OutOfFuel
      ensures |names| == 1 && fuel > 0 ==> status == Found
      ensures fuel == 0 ==> status == OutOfFuel
    {
      hide Pow2, BitLen, IsPow2, AllBelow, Threaded, DistinctPairs, Ready, PerfectOn, FromNames, ScrambleSpec,
           NoTwice, Stuck, InitialBlen, Failed, GoesOn, SearchAfter;
      alen, salt, tried, verdicts := smax, 0, [], [];
      var blen: nat := InitialBlen(smax, |names|);
      SizesGood(logS, |names|);
      NoneFailed(names, logS, smax);
      scramble := ScrambleInit(smax, logS);
      Resize(blen);
      tabh := seq(smax, _ => -1);
      var badInitkey, badPerfect, left := 0, 0, fuel;
      var si: nat := 1;
      while left > 0
        invariant Sized(alen, blen) && scramble == ScrambleSpec(logS) && alen == smax
        invariant badPerfect > 0 ==> NoTwice(names)
        invariant |names| == 1 ==> left == fuel
        invariant Failed(names, logS, smax, tried, verdicts) && |tried| == |verdicts| == fuel - left
        invariant SearchAfter(smax, |names|, verdicts) == Search(si, blen, badInitkey, badPerfect)
        invariant si < 0x1_0000_0000
        invariant GoesOn(smax, |names|, verdicts, |verdicts|)
      {
        left := left - 1;
        salt := (si * GOLDEN) % M64;
        var distinct, perfect := Trial(alen, blen, si);
        if perfect {
          return Found, alen, salt, tried, verdicts;
        }
        FailedNext(names, logS, smax, tried, verdicts, Try(si, alen, blen), distinct);
        GoesOnNext(smax, |names|, verdicts, distinct);
        tried, verdicts := tried + [Try(si, alen, blen)], verdicts + [distinct];
        if !distinct {
          badInitkey := badInitkey + 1;
          if badInitkey >= RETRY_INITKEY {
            // initalen set alen to its maximum, so the branch that doubles alen is never taken.
            if blen < smax {
              DoublePow2(blen, logS);
              blen := blen * 2;
              Resize(blen);
            }
            badInitkey, badPerfect := 0, 0;
          }
        } else {
          badPerfect := badPerfect + 1;
          if badPerfect >= RETRY_PERFECT {
            if blen < smax {
              DoublePow2(blen, logS);
              blen := blen * 2;
              Resize(blen);
              si := (si + 0xffff_ffff) % 0x1_0000_0000;
            } else {
              return GaveUp, alen, salt, tried, verdicts;
            }
            badPerfect := 0;
          }
        }
        si := (si + 1) % 0x1_0000_0000;
      }
      status := OutOfFuel;
    }
  }

  /** A set of other bs leaves room in the queue. */
  lemma MarkedFits(marked: set<nat>, item: nat, blen: nat)
    requires item < blen && forall b :: b in marked ==> b < blen && b != item
    ensures |marked| + 1 <= blen
  {
    RangeSize(blen);
    SubsetSize(marked + {item}, Range(blen));
  }

  lemma ZerosBelow(s: seq<nat>, n: nat)
    requires n > 0 && forall i :: 0 <= i < |s| ==> s[i] == 0
    ensures AllBelow(s, n)
  {
  }

  lemma AllBelowMore(s: seq<nat>, m: nat, n: nat)
    requires AllBelow(s, m) && m <= n
    ensures AllBelow(s, n)
  {
  }

  lemma LogSmall(n: nat, k: nat)
    requires IsPow2(n) && n <= Pow2(k)
    ensures Log2(n) <= k
  {
    if Log2(n) > k { Pow2Mono(k, Log2(n)); }
  }

  lemma LogPositive(n: nat)
    requires IsPow2(n) && n > 1
    ensures Log2(n) > 0
  {
    assert Pow2(0) == 1;
  }

  /** Below a larger power of two there is room to double. */
  lemma DoublePow2(n: nat, k: nat)
    requires IsPow2(n) && n < Pow2(k)
    ensures IsPow2(2 * n) && 2 * n <= Pow2(k)
  {
    var j := Log2(n);
    if j >= k { Pow2Mono(k, j); }
    Pow2Mono(j, k);
    Pow2Next(j);
    Pow2IsPow2(j + 1);
  }

  /** Both coordinates of a 64-bit hash are in range. */
  lemma CoordBounds(h: U64, loga: nat, logb: nat)
    requires loga <= 64
    ensures CoordA(h, loga) < Pow2(loga)
    ensures loga == 0 ==> CoordA(h, loga) == 0
    ensures And(h, Pow2(logb) - 1) == Low(h, logb)
    ensures Pow2(logb) <= 1 ==> Low(h, logb) == 0
  {
    Pow2Of64();
    ShrBound(h, loga, 64 - loga);
    AndMask(h, logb);
  }

  lemma SizesGood(k: nat, n: nat)
    ensures IsPow2(Pow2(k)) && IsPow2(InitialBlen(Pow2(k), n))
    ensures k <= 32 ==> AllBelow(ScrambleSpec(k), Pow2(k))
  {
    hide Pow2, BitLen, IsPow2, PermuteSpec;
    Pow2IsPow2(k);
    Divided(k, 4);
    Divided(k, 3);
    Divided(k, 2);
    assert IsPow2(1) by { Pow2IsPow2(0); OneIsPow2(); }
    if k <= 32 { ScrambleGood(k); }
  }

  lemma OneIsPow2()
    ensures Pow2(0) == 1 && Pow2(2) == 4 && Pow2(3) == 8 && Pow2(4) == 16
  {
  }

  /** A power of two divided by 16, 8 or 4 is a power of two or zero. */
  lemma Divided(k: nat, d: nat)
    requires d == 2 || d == 3 || d == 4
    ensures var q := Pow2(k) / (if d == 4 then 16 else if d == 3 then 8 else 4);
            q == 0 || IsPow2(q)
  {
    hide Pow2, BitLen, IsPow2;
    OneIsPow2();
    if k >= d {
      Pow2IsPow2(k - d);
      Quotient(k - d, d);
    } else {
      Pow2Mono(k, d);
    }
  }

  lemma Quotient(j: nat, d: nat)
    requires d == 2 || d == 3 || d == 4
    ensures Pow2(j + d) == Pow2(j) * (if d == 4 then 16 else if d == 3 then 8 else 4)
  {
    Pow2Next(j);
    Pow2Next(j + 1);
    Pow2Next(j + 2);
    Pow2Next(j + 3);
  }

  lemma BelowAt(s: seq<nat>, n: nat, i: nat)
    requires AllBelow(s, n) && i < |s|
    ensures s[i] < n
  {
  }

  // ---------------------------------------------------------------- the result and its reader

  /** struct perfect_hash: what make_perfect hands to the table writer. */
  datatype Table = Table(capacity: nat, occupied: nat, shift: nat, mask: nat, salt: U64, scramble: seq<nat>,
                         tab: seq<nat>)

  /** A table whose reader stays in bounds. */
  ghost predicate Usable(t: Table) {
    && IsPow2(t.capacity)
    && t.shift < 64 && Pow2(64 - t.shift) <= t.capacity
    && |t.scramble| == 256 && AllBelow(t.scramble, t.capacity)
    && |t.tab| == t.mask + 1 && IsPow2(|t.tab|) && AllBelow(t.tab, 256)
  }

  /** Where the reader looks for a hash value: (val >> shift) ^ scramble[tab[val & mask]]. */
  function IndexOf(t: Table, val: U64): nat
    requires Usable(t)
  {
    AndMask(val, Log2(|t.tab|));
    Xor(Shr(val, t.shift), t.scramble[t.tab[And(val, t.mask)]])
  }

  /** `objc_stringhash_t::hash`. */
  function Index(t: Table, name: Name): nat
    requires Usable(t)
  {
    IndexOf(t, Hash(name, t.salt))
  }

  /** For any string at all, in the table or not, the index is below the capacity. */
  lemma IndexBound(t: Table, name: Name)
    requires Usable(t)
    ensures Index(t, name) < t.capacity
  {
    hide Pow2, BitLen, Xor, Shr, And, Low, Hash;
    var val := Hash(name, t.salt);
    AndMask(val, Log2(|t.tab|));
    Pow2Of64();
    ShrBound(val, 64 - t.shift, t.shift);
    XorBound(Shr(val, t.shift), t.scramble[t.tab[And(val, t.mask)]], Log2(t.capacity));
  }

  /** The reader separates the given names. */
  ghost predicate Separates(t: Table, names: seq<Name>)
    requires Usable(t)
  {
    forall i, j :: 0 <= i < j < |names| ==> Index(t, names[i]) != Index(t, names[j])
  }

  /** The table that `make_perfect` fills from a solved search. */
  function TableOf(smax: nat, nkeys: nat, log: nat, salt: U64, scramble: seq<nat>, tab: seq<nat>): Table
    requires log <= 64 && |tab| > 0
  {
    Table(smax, nkeys, 64 - log, |tab| - 1, salt, scramble, tab)
  }

  /** The reader computes the builder's slots, so a solved search separates its names. */
  lemma ReaderMatchesBuilder(c: Coords, names: seq<Name>, valB: seq<nat>, salt: U64, loga: nat, logb: nat)
    requires Good(c) && Values(c, valB) && PerfectOn(c, valB)
    requires 0 < loga <= c.k <= 31 && |valB| == Pow2(logb)
    requires |c.aK| == |c.bK| == |names|
    requires forall i {:trigger c.aK[i]} {:trigger c.bK[i]} :: 0 <= i < |names| ==>
               c.aK[i] == CoordA(Hash(names[i], salt), loga) && c.bK[i] == Low(Hash(names[i], salt), logb)
    ensures var t := TableOf(Pow2(c.k), |names|, loga, salt, c.scramble, valB);
            Usable(t) && Separates(t, names)
  {
    hide Pow2, BitLen, Xor, Shr, And, Low, Hash;
    var t := TableOf(Pow2(c.k), |names|, loga, salt, c.scramble, valB);
    Pow2IsPow2(c.k);
    Pow2IsPow2(logb);
    Pow2Mono(loga, c.k);
    assert Usable(t);
    forall i | 0 <= i < |names| ensures Index(t, names[i]) == SlotOf(c, i, valB[c.bK[i]]) {
      AndMask(Hash(names[i], salt), logb);
    }
  }

  /** What the reader needs, or the table of a single name, whose shift C does not define. */
  ghost predicate Made(t: Table, names: seq<Name>) {
    if t.capacity > 1 then Usable(t) && Separates(t, names) else t.shift == 64
  }

  ghost predicate Hopeless(names: seq<Name>, k: nat) { exists last :: GivesUpWith(names, k, last) }

  /** One size of `make_perfect`. */
  method Attempt(names: seq<Name>, smax: nat, ghost logS: nat, fuel: nat) returns (status: Status, t: Table)
    requires smax == Pow2(logS) && logS <= 31
    ensures status == Found ==> Made(t, names) && t.capacity == smax && t.occupied == |names|
    ensures status == GaveUp ==> Hopeless(names, logS)
    ensures !NoTwice(names) ==> status == OutOfFuel
    ensures |names| == 1 && fuel > 0 ==> status == Found
    ensures fuel == 0 ==> status == OutOfFuel
  {
    hide Pow2, BitLen, Xor, Shr, And, Low, Hash, AllBelow, Threaded, DistinctPairs, PerfectOn, ScrambleSpec;
    var builder := new Builder(names, smax, logS);
    var alen, salt;
    ghost var tried, verdicts;
    status, alen, salt, tried, verdicts := builder.FindHash(fuel);
    assert status == GaveUp ==> GivesUpWith(names, logS, tried[|tried| - 1]);
    t := Table(0, 0, 0, 0, 0, [], []);
    if status == Found {
      ghost var loga := Log2(alen);
      LogSmall(alen, logS);
      var log := Log2u(alen);
      Log2uExact(loga, log);
      t := Table(smax, |names|, 64 - log, |builder.valB| - 1, salt, builder.scramble, builder.valB);
      if smax > 1 {
        LogPositive(alen);
        ReaderMatchesBuilder(builder.C(), names, builder.valB, salt, loga, Log2(|builder.valB|));
      } else {
        LogOfOne(alen);
      }
    }
  }

  lemma LogOfOne(n: nat)
    requires IsPow2(n) && n <= 1
    ensures Log2(n) == 0
  {
  }

  /** `make_perfect`: the least power of two that holds the names, then twice that. Finding
      nothing within the fuel is reported apart from failing at both sizes. A single name always
      gets one slot and a shift of 64, at the first salt. */
  method MakePerfect(names: seq<Name>, fuel: nat) returns (status: Status, t: Table)
    requires 1 <= |names| <= 0x4000_0000
    ensures status == Found ==> Made(t, names) && t.occupied == |names|
    ensures status == Found ==> |names| <= t.capacity < 4 * |names|
    ensures status == GaveUp ==> exists k: nat :: Pow2(k) < 2 * |names| && Hopeless(names, k) && Hopeless(names, k + 1)
    ensures !NoTwice(names) ==> status == OutOfFuel
    ensures |names| == 1 && fuel > 0 ==> status == Found && t.capacity == 1 && t.shift == 64
    ensures fuel == 0 ==> status == OutOfFuel
  {
    hide Pow2, BitLen, IsPow2, Usable, Separates, NoTwice, Hopeless;
    var log := Log2u(|names|);
    LogOfCount(|names|, log);
    var smax := Pow2(log);
    status, t := Attempt(names, smax, log, fuel);
    if status == GaveUp {
      Pow2Next(log);
      status, t := Attempt(names, 2 * smax, log + 1, fuel);
    }
  }

  lemma LogOfCount(n: nat, log: nat)
    requires 1 <= n <= 0x4000_0000 && n <= Pow2(log) && (log > 0 ==> Pow2(log - 1) < n)
    ensures log <= 30 && n <= Pow2(log) < 2 * n
  {
    hide BitLen;
    Pow2Of64();
    if log > 30 {
      Pow2Mono(30, log - 1);
      Pow2Of30();
    }
  }
}
