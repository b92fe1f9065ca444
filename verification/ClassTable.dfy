/** `objc_clsopt_t`: the class table on top of the string table. A class name may belong to
    several images; its duplicates share one slot and occupy a run of `duplicateOffsets`. */
module ClassTable {
  import opened Wrappers
  import opened Hash64
  import opened PerfectHash
  import opened StringTable

  /** A class of the input: its name, its address and the address of its image's header info. */
  datatype Class = Class(name: Name, cls: U64, hi: U64)

  /** objc_classheader_t. */
  datatype ClassHeader = ClassHeader(clsOffset: int, hiOffset: int) {
    predicate IsDuplicate() { clsOffset % 2 == 1 }

    function DuplicateCount(): int { clsOffset / 2 }
  }

  const EMPTY: ClassHeader := ClassHeader(0, 0)

  function HeaderOf(c: Class, base: U64): ClassHeader { ClassHeader(Offset(c.cls, base), Offset(c.hi, base)) }

  /** `equal_range`: the classes of one name. */
  function OfName(classes: seq<Class>, name: Name): (r: seq<Class>)
    ensures forall i :: 0 <= i < |r| ==> r[i].name == name && r[i] in classes
    ensures |r| <= |classes|
  {
    if classes == [] then []
    else OfName(classes[..|classes| - 1], name)
         + if classes[|classes| - 1].name == name then [classes[|classes| - 1]] else []
  }

  lemma {:induction false} OfNameNonempty(classes: seq<Class>, name: Name, i: nat)
    requires i < |classes| && classes[i].name == name
    ensures classes[i] in OfName(classes, name)
  {
    var n := |classes| - 1;
    if i < n { OfNameNonempty(classes[..n], name, i); }
  }

  function HeadersOf(cs: seq<Class>, base: U64): (r: seq<ClassHeader>)
    ensures |r| == |cs| && forall i :: 0 <= i < |r| ==> r[i] == HeaderOf(cs[i], base)
  {
    seq(|cs|, i requires 0 <= i < |cs| => HeaderOf(cs[i], base))
  }

  /** What the slot of a name must hold once the name's classes are written. */
  ghost predicate Filled(group: seq<Class>, base: U64, slot: ClassHeader, dups: seq<ClassHeader>) {
    if |group| == 1 then slot == HeaderOf(group[0], base)
    else
      && slot.clsOffset == 2 * |group| + 1
      && 0 <= slot.hiOffset <= slot.hiOffset + |group| <= |dups|
      && dups[slot.hiOffset..slot.hiOffset + |group|] == HeadersOf(group, base)
  }

  /** A class that is alone under its name lies at an even offset: the low bit marks duplicates. */
  ghost predicate Aligned(classes: seq<Class>, base: U64) {
    forall i :: 0 <= i < |classes| && |OfName(classes, classes[i].name)| == 1 ==> Offset(classes[i].cls, base) % 2 == 0
  }

  lemma AloneIsEven(classes: seq<Class>, base: U64, name: Name)
    requires Aligned(classes, base) && |OfName(classes, name)| == 1
    ensures Offset(OfName(classes, name)[0].cls, base) % 2 == 0
  {
    hide OfName, Offset;
    var c := OfName(classes, name)[0];
    assert c in classes && c.name == name;
  }

  lemma {:induction false} TwoOfName(classes: seq<Class>, name: Name, i: nat, j: nat)
    requires i < j < |classes| && classes[i].name == classes[j].name == name
    ensures |OfName(classes, name)| >= 2
  {
    var n := |classes| - 1;
    if j < n {
      TwoOfName(classes[..n], name, i, j);
    } else {
      OfNameNonempty(classes[..n], name, i);
    }
  }

  ghost predicate Seen(classes: seq<Class>, name: Name, n: nat)
    requires n <= |classes|
  {
    exists i :: 0 <= i < n && classes[i].name == name
  }

  /** The slot of one name: its classes if one of the first n has the name, else nothing. */
  ghost predicate NameWritten(t: Strings, name: Name, classes: seq<Class>, base: U64,
                              slots: seq<ClassHeader>, dups: seq<ClassHeader>, n: nat)
    requires Readable(t) && n <= |classes|
  {
    var h := Index(t.hash, name);
    && h < |slots|
    && if Seen(classes, name, n) then Filled(OfName(classes, name), base, slots[h], dups) else slots[h] == EMPTY
  }

  /** The classes among the first n are written, the slots of the other strings are empty. */
  ghost predicate ClassesWritten(t: Strings, strings: seq<Entry>, classes: seq<Class>, base: U64,
                                 slots: seq<ClassHeader>, dups: seq<ClassHeader>, n: nat)
    requires Readable(t) && n <= |classes|
  {
    && |slots| == |t.offsets|
    && forall i :: 0 <= i < |strings| ==> NameWritten(t, strings[i].name, classes, base, slots, dups, n)
  }

  /** The runs of different slots do not overlap. */
  ghost predicate RunsDisjoint(slots: seq<ClassHeader>) {
    forall g, h :: 0 <= g < h < |slots| && slots[g].IsDuplicate() && slots[h].IsDuplicate() ==>
      || slots[g].hiOffset + slots[g].DuplicateCount() <= slots[h].hiOffset
      || slots[h].hiOffset + slots[h].DuplicateCount() <= slots[g].hiOffset
  }

  /** `getClassHeaderAndIndex`: how many classes have the name. */
  function GetClassCount(t: Strings, base: U64, mem: U64 -> Name, slots: seq<ClassHeader>, key: Name): int
    requires Readable(t) && |slots| == |t.offsets|
  {
    match GetIndex(t, base, mem, key)
    case None => 0
    case Some(h) => if !slots[h].IsDuplicate() then 1 else slots[h].DuplicateCount()
  }

  /** The addresses behind class headers. */
  function Resolve(base: U64, hs: seq<ClassHeader>): (r: seq<(U64, U64)>)
    ensures |r| == |hs|
  {
    seq(|hs|, i requires 0 <= i < |hs| => (Address(base, hs[i].clsOffset), Address(base, hs[i].hiOffset)))
  }

  /** `getClassesAndHeaders`: the (class, header) pairs it stores into the caller's arrays. */
  function GetClasses(t: Strings, base: U64, mem: U64 -> Name, slots: seq<ClassHeader>, dups: seq<ClassHeader>,
                      key: Name): seq<(U64, U64)>
    requires Readable(t) && |slots| == |t.offsets|
    requires RunsInside(slots, dups)
  {
    match GetIndex(t, base, mem, key)
    case None => []
    case Some(h) =>
      if !slots[h].IsDuplicate() then Resolve(base, [slots[h]])
      else Resolve(base, dups[slots[h].hiOffset..slots[h].hiOffset + slots[h].DuplicateCount()])
  }

  function Pairs(cs: seq<Class>): (r: seq<(U64, U64)>)
    ensures |r| == |cs|
  {
    seq(|cs|, i requires 0 <= i < |cs| => (cs[i].cls, cs[i].hi))
  }

  lemma ResolveHeaders(cs: seq<Class>, base: U64)
    ensures Resolve(base, HeadersOf(cs, base)) == Pairs(cs)
  {
    forall i | 0 <= i < |cs| ensures Resolve(base, HeadersOf(cs, base))[i] == Pairs(cs)[i] {
      OffsetUndone(cs[i].cls, base);
      OffsetUndone(cs[i].hi, base);
    }
  }

  /** A filled slot gives back its group. */
  lemma FilledReads(group: seq<Class>, base: U64, slot: ClassHeader, dups: seq<ClassHeader>)
    requires |group| > 0 && Filled(group, base, slot, dups)
    requires |group| == 1 ==> Offset(group[0].cls, base) % 2 == 0
    ensures slot.IsDuplicate() <==> |group| != 1
    ensures slot.IsDuplicate() ==>
              && slot.DuplicateCount() == |group|
              && 0 <= slot.hiOffset <= slot.hiOffset + |group| <= |dups|
              && Resolve(base, dups[slot.hiOffset..slot.hiOffset + |group|]) == Pairs(group)
    ensures !slot.IsDuplicate() ==> Resolve(base, [slot]) == Pairs(group)
  {
    ResolveHeaders(group, base);
    if |group| == 1 {
      assert [slot] == HeadersOf(group, base);
    }
  }

  /** Every class name is a string of the table. */
  ghost predicate NamesKnown(strings: seq<Entry>, classes: seq<Class>) {
    forall i :: 0 <= i < |classes| ==> Known(strings, classes[i].name)
  }

  ghost predicate Known(strings: seq<Entry>, name: Name) { exists j :: 0 <= j < |strings| && strings[j].name == name }

  // ---------------------------------------------------------------- what was given

  /** The places in the input of the classes of a name, and of one (class, header) pair among them. */
  ghost function Places(classes: seq<Class>, name: Name): set<nat> {
    set i: nat | i < |classes| && classes[i].name == name
  }

  ghost function PlacesOf(classes: seq<Class>, name: Name, pair: (U64, U64)): set<nat> {
    set i: nat | i < |classes| && classes[i].name == name && (classes[i].cls, classes[i].hi) == pair
  }

  /** There are as many classes of a name as places with that name. */
  lemma {:induction false} OfNameSize(classes: seq<Class>, name: Name)
    ensures |OfName(classes, name)| == |Places(classes, name)|
  {
    if classes != [] {
      var n := |classes| - 1;
      OfNameSize(classes[..n], name);
      PlacesNext(classes, name, n);
    }
  }

  lemma PlacesNext(classes: seq<Class>, name: Name, n: nat)
    requires |classes| == n + 1
    ensures Places(classes, name) == Places(classes[..n], name) + if classes[n].name == name then {n} else {}
    ensures n !in Places(classes[..n], name)
  {
  }

  /** Each pair occurs among the classes of a name as often as in the input under that name. */
  lemma {:induction false} OfNamePairs(classes: seq<Class>, name: Name, pair: (U64, U64))
    ensures multiset(Pairs(OfName(classes, name)))[pair] == |PlacesOf(classes, name, pair)|
  {
    hide PlacesOf, Pairs;
    if classes == [] {
      NothingGiven(classes, name, pair);
    } else {
      var n := |classes| - 1;
      var before, last := OfName(classes[..n], name), classes[n];
      OfNamePairs(classes[..n], name, pair);
      PlacesOfNext(classes, name, pair, n);
      if last.name == name {
        PairsSnoc(before, last);
      } else {
        assert OfName(classes, name) == before;
      }
    }
  }

  lemma NothingGiven(classes: seq<Class>, name: Name, pair: (U64, U64))
    requires classes == []
    ensures PlacesOf(classes, name, pair) == {} && Pairs(OfName(classes, name)) == []
  {
  }

  lemma PlacesOfNext(classes: seq<Class>, name: Name, pair: (U64, U64), n: nat)
    requires |classes| == n + 1
    ensures PlacesOf(classes, name, pair) == PlacesOf(classes[..n], name, pair)
              + if classes[n].name == name && (classes[n].cls, classes[n].hi) == pair then {n} else {}
    ensures n !in PlacesOf(classes[..n], name, pair)
  {
  }

  lemma PairsSnoc(cs: seq<Class>, c: Class)
    ensures Pairs(cs + [c]) == Pairs(cs) + [(c.cls, c.hi)]
  {
  }

  /** A reader's answer is exact: its number is the number of places with the name, and each pair
      occurs in it as often as in the input under that name. */
  ghost predicate Exact(classes: seq<Class>, key: Name, pairs: seq<(U64, U64)>, count: int) {
    && count == |Places(classes, key)| == |pairs|
    && forall p :: multiset(pairs)[p] == |PlacesOf(classes, key, p)|
  }

  lemma GroupIsExact(classes: seq<Class>, key: Name)
    ensures Exact(classes, key, Pairs(OfName(classes, key)), |OfName(classes, key)|)
  {
    hide OfName, PlacesOf, Places;
    OfNameSize(classes, key);
    forall p ensures multiset(Pairs(OfName(classes, key)))[p] == |PlacesOf(classes, key, p)| {
      OfNamePairs(classes, key, p);
    }
  }

  /** After a successful write the reader returns, for every name of a class, exactly the pairs given
      for that name, each as often as it was given, in the order given, and their number; for a
      string that is not in the table it returns nothing. */
  lemma ClassReaderIsExact(t: Strings, base: U64, mem: U64 -> Name, strings: seq<Entry>, classes: seq<Class>,
                           slots: seq<ClassHeader>, dups: seq<ClassHeader>, key: Name)
    requires Readable(t) && Holds(t, base, strings, |strings|) && Stored(strings, base, mem)
    requires ClassesWritten(t, strings, classes, base, slots, dups, |classes|)
    requires Aligned(classes, base) && NamesKnown(strings, classes)
    requires RunsInside(slots, dups)
    ensures Seen(classes, key, |classes|) || (forall j :: 0 <= j < |strings| ==> strings[j].name != key) ==>
              && GetClasses(t, base, mem, slots, dups, key) == Pairs(OfName(classes, key))
              && Exact(classes, key, GetClasses(t, base, mem, slots, dups, key),
                        GetClassCount(t, base, mem, slots, key))
  {
    hide Index, GetIndex, OfName, Offset, Address, Holds, Aligned, Exact;
    ReaderIsExact(t, base, mem, strings, key);
    GroupIsExact(classes, key);
    GroupIffSeen(classes, key);
    if Seen(classes, key, |classes|) {
      var i :| 0 <= i < |classes| && classes[i].name == key;
      var j :| 0 <= j < |strings| && strings[j].name == classes[i].name;
      var group := OfName(classes, key);
      var h := Index(t.hash, key);
      if |group| == 1 { AloneIsEven(classes, base, key); }
      FilledReads(group, base, slots[h], dups);
    }
  }

  // ---------------------------------------------------------------- the writer

  /** All offsets of a group fit 32 bits. */
  predicate GroupFits(cs: seq<Class>, base: U64) {
    forall i :: 0 <= i < |cs| ==> Fits32(Offset(cs[i].cls, base)) && Fits32(Offset(cs[i].hi, base))
  }

  /** A group is made of the classes. */
  lemma GroupFitsToo(classes: seq<Class>, name: Name, base: U64)
    ensures GroupFits(classes, base) ==> GroupFits(OfName(classes, name), base)
  {
    hide OfName, Offset, Fits32;
    var group := OfName(classes, name);
    forall i | 0 <= i < |group| && GroupFits(classes, base)
      ensures Fits32(Offset(group[i].cls, base)) && Fits32(Offset(group[i].hi, base))
    {
      assert group[i] in classes;
    }
  }

  /** A longer list of duplicates keeps every filled slot filled. */
  lemma FilledGrows(group: seq<Class>, base: U64, slot: ClassHeader, dups: seq<ClassHeader>, dups': seq<ClassHeader>)
    requires Filled(group, base, slot, dups) && dups <= dups'
    ensures Filled(group, base, slot, dups')
  {
    if |group| != 1 {
      assert dups'[slot.hiOffset..slot.hiOffset + |group|] == dups[slot.hiOffset..slot.hiOffset + |group|];
    }
  }

  /** A new run at the end of the duplicates overlaps no other. */
  lemma RunsExtend(slots: seq<ClassHeader>, dups: seq<ClassHeader>, h: nat, slot: ClassHeader, dups': seq<ClassHeader>)
    requires h < |slots| && RunsDisjoint(slots) && RunsInside(slots, dups) && dups <= dups'
    requires slot.IsDuplicate() ==>
               slot.hiOffset == |dups| && 0 <= slot.DuplicateCount() && slot.hiOffset + slot.DuplicateCount() <= |dups'|
    ensures RunsDisjoint(slots[h := slot]) && RunsInside(slots[h := slot], dups')
  {
  }

  /** The test by which the writer skips a name it has already done: a written name's slot is not
      zero, an unwritten one's is. */
  lemma SeenIffNonzero(t: Strings, entries: seq<Entry>, classes: seq<Class>, base: U64, slots: seq<ClassHeader>,
                       dups: seq<ClassHeader>, n: nat, k: nat)
    requires Readable(t) && n < |classes| && k < |entries| && entries[k].name == classes[n].name
    requires ClassesWritten(t, entries, classes, base, slots, dups, n)
    ensures Index(t.hash, entries[k].name) < |slots|
    ensures Seen(classes, classes[n].name, n) <==> slots[Index(t.hash, entries[k].name)].clsOffset != 0
    ensures !Seen(classes, classes[n].name, n) ==> slots[Index(t.hash, entries[k].name)] == EMPTY
  {
    hide Index, OfName, Offset, Usable;
    var name := classes[n].name;
    assert NameWritten(t, entries[k].name, classes, base, slots, dups, n);
    if Seen(classes, name, n) {
      var i :| 0 <= i < n && classes[i].name == name;
      TwoOfName(classes, name, i, n);
    }
  }

  class ClassHash {
    var strings: StringHash
    var slots: seq<ClassHeader>
    var dups: seq<ClassHeader>

    constructor (strings: StringHash)
      ensures this.strings == strings && slots == [] && dups == []
    {
      this.strings := strings;
      slots, dups := [], [];
    }

    /** `size()`. */
    function Size(): nat
      reads this, strings
    {
      strings.Size() + strings.t.hash.capacity * 8 + 4 + |dups| * 8
    }

    /** `sizeWithoutDups()`. */
    function SizeWithoutDups(): nat
      reads this, strings
    {
      strings.Size() + strings.t.hash.capacity * 8
    }

    ghost predicate State(entries: seq<Entry>, classes: seq<Class>, base: U64, n: nat)
      reads this, strings
    {
      && n <= |classes|
      && Readable(strings.t) && Separates(strings.t.hash, Names(entries))
      && ClassesWritten(strings.t, entries, classes, base, slots, dups, n)
      && RunsDisjoint(slots)
      && RunsInside(slots, dups)
    }

    /** The body of `write`'s loop for a name that is not yet done: one class, or all duplicates. */
    method WriteGroup(base: U64, remaining: nat, group: seq<Class>, h: nat) returns (err: Option<Error>)
      requires h < |slots| && |group| > 0 && slots[h] == EMPTY
      requires RunsDisjoint(slots) && RunsInside(slots, dups)
      requires |group| == 1 ==> Offset(group[0].cls, base) % 2 == 0
      modifies this`slots, this`dups
      ensures err in {None, Some(TooSmall), Some(OffsetTooBig)}
      ensures err == Some(TooSmall) <==> |group| > 1 && old(Size()) + 8 * |group| > remaining
      ensures err == Some(TooSmall) ==> dups == old(dups)
      ensures err == None && old(Size()) <= remaining ==> Size() <= remaining
      ensures err == Some(OffsetTooBig) ==> !GroupFits(group, base)
      ensures err == None ==> |slots| == |old(slots)| && slots == old(slots)[h := slots[h]]
      ensures err == None ==> old(dups) <= dups && Filled(group, base, slots[h], dups)
      ensures err == None ==> GroupFits(group, base) && RunsDisjoint(slots) && RunsInside(slots, dups)
    {
      hide Offset;
      if |group| == 1 {
        if !Fits32(Offset(group[0].cls, base)) || !Fits32(Offset(group[0].hi, base)) {
          return Some(OffsetTooBig);
        }
        slots := slots[h := HeaderOf(group[0], base)];
        RunsExtend(old(slots), old(dups), h, slots[h], dups);
        return None;
      }
      var dest := |dups|;
      if Size() + 8 * |group| > remaining {
        return Some(TooSmall);
      }
      slots := slots[h := ClassHeader(2 * |group| + 1, dest)];
      for i := 0 to |group|
        invariant slots == old(slots)[h := ClassHeader(2 * |group| + 1, dest)]
        invariant dups == old(dups) + HeadersOf(group[..i], base)
        invariant GroupFits(group[..i], base)
      {
        if !Fits32(Offset(group[i].cls, base)) || !Fits32(Offset(group[i].hi, base)) {
          return Some(OffsetTooBig);
        }
        dups := dups + [HeaderOf(group[i], base)];
        assert HeadersOf(group[..i + 1], base) == HeadersOf(group[..i], base) + [HeaderOf(group[i], base)];
      }
      assert group[..|group|] == group;
      assert dups[dest..dest + |group|] == HeadersOf(group, base);
      RunsExtend(old(slots), old(dups), h, slots[h], dups);
      err := None;
    }

    /** One iteration of `write`'s loop: look the name up, skip it if done, else write it. */
    method WriteClass(base: U64, remaining: nat, mem: U64 -> Name, entries: seq<Entry>, classes: seq<Class>, n: nat)
      returns (err: Option<Error>)
      requires State(entries, classes, base, n) && n < |classes| && Aligned(classes, base)
      requires Holds(strings.t, base, entries, |entries|) && Stored(entries, base, mem)
      modifies this`slots, this`dups
      ensures err in {None, Some(TooSmall), Some(OffsetTooBig), Some(ClassListBusted)}
      ensures err == Some(TooSmall) ==> Size() + 8 * |classes| > remaining
      ensures err == Some(OffsetTooBig) ==> !GroupFits(classes, base)
      ensures err == Some(ClassListBusted) ==> !Known(entries, classes[n].name)
      ensures err == None ==> State(entries, classes, base, n + 1)
      ensures err == None && old(Size()) <= remaining ==> Size() <= remaining
      ensures err == None ==> Known(entries, classes[n].name)
    {
      hide Index, OfName, Usable, Separates, RunsDisjoint, RunsInside, Offset, GetIndex, Holds, Aligned, GroupFits;
      var name := classes[n].name;
      var t := strings.t;
      ReaderIsExact(t, base, mem, entries, name);
      var index := GetIndex(t, base, mem, name);
      if index == None {
        return Some(ClassListBusted);
      }
      var h := index.value;
      ghost var k :| 0 <= k < |entries| && entries[k].name == name;
      OfNameNonempty(classes, name, n);
      var group := OfName(classes, name);
      if |group| == 1 { AloneIsEven(classes, base, name); }
      assert h == Index(t.hash, entries[k].name) < |slots|;
      SeenIffNonzero(t, entries, classes, base, slots, dups, n, k);
      if slots[h].clsOffset != 0 {
        GroupSkipped(t, entries, classes, base, slots, dups, n, k);
        return None;
      }
      ghost var was, wasDups := slots, dups;
      err := WriteGroup(base, remaining, group, h);
      if err == Some(OffsetTooBig) { GroupFitsToo(classes, name, base); }
      if err == None {
        GroupDone(t, entries, classes, base, was, wasDups, slots, dups, n, h, k);
      }
    }

    /** `write`: the string table, then every class. None means success, and then the reader of
        `ClassReaderIsExact` has what it needs. The code never sets duplicateCount to zero; the
        new runs simply follow whatever it counts at the start. */
    method Write(base: U64, remaining: nat, mem: U64 -> Name, entries: seq<Entry>, classes: seq<Class>, fuel: nat)
      returns (err: Option<Error>)
      requires |entries| <= 0x4000_0000 && |classes| < 0x4000_0000
      requires Stored(entries, base, mem) && Aligned(classes, base)
      modifies this`slots, this`dups, strings
      ensures err == Some(Undefined) ==> |entries| <= 1
      ensures err == Some(TooSmall) ==> HEADER_SIZE > remaining || Size() + 8 * |classes| > remaining
      ensures err == Some(OffsetTooBig) ==>
                !GroupFits(classes, base) || exists i :: 0 <= i < |entries| && !Fits32(Offset(entries[i].addr, base))
      ensures err == Some(ClassListBusted) ==> !NamesKnown(entries, classes)
      ensures |entries| == 1 && fuel > 0 ==> err == Some(Undefined) || err == Some(TooSmall)
      ensures err == None ==> Size() <= remaining
      ensures err == None && entries == [] ==> classes == []
      ensures err == None && entries != [] ==> State(entries, classes, base, |classes|)
      ensures err == None && entries != [] ==>
                Holds(strings.t, base, entries, |entries|) && NamesKnown(entries, classes)
    {
      hide Usable, Separates, RunsDisjoint, RunsInside, Holds, NameWritten, Aligned, Stored, GroupFits, Fits32, Offset,
           Hopeless, NoTwice, NamesKnown;
      err := strings.Write(base, remaining, entries, fuel);
      if err != None {
        return;
      }
      if SizeWithoutDups() > remaining || Size() > remaining {
        return Some(TooSmall);
      }
      slots := seq(strings.t.hash.capacity, _ => EMPTY);
      if |entries| == 0 {
        // The lookup of a class name would read a table that has no slots.
        return if classes == [] then None else Some(Undefined);
      }
      NothingWritten(strings.t, entries, classes, base, dups);
      NoNames(entries, classes[..0]);
      for n := 0 to |classes|
        invariant State(entries, classes, base, n) && Holds(strings.t, base, entries, |entries|)
        invariant strings == old(strings) && err == None && Size() <= remaining
        invariant NamesKnown(entries, classes[..n])
      {
        err := WriteClass(base, remaining, mem, entries, classes, n);
        if err != None {
          if err == Some(ClassListBusted) { NameMissing(entries, classes, n); }
          return;
        }
        NamesKnownNext(entries, classes, n);
      }
      assert classes[..|classes|] == classes;
    }
  }

  lemma NoNames(entries: seq<Entry>, classes: seq<Class>)
    requires classes == []
    ensures NamesKnown(entries, classes)
  {
  }

  lemma NameMissing(entries: seq<Entry>, classes: seq<Class>, n: nat)
    requires n < |classes| && !Known(entries, classes[n].name)
    ensures !NamesKnown(entries, classes)
  {
    hide Known;
  }

  lemma NamesKnownNext(entries: seq<Entry>, classes: seq<Class>, n: nat)
    requires n < |classes| && NamesKnown(entries, classes[..n]) && Known(entries, classes[n].name)
    ensures NamesKnown(entries, classes[..n + 1])
  {
    hide Known;
    var more := classes[..n + 1];
    forall i | 0 <= i < |more| ensures Known(entries, more[i].name) {
      if i < n {
        assert more[i] == classes[..n][i];
      }
    }
  }

  /** The cleared table holds no class. */
  lemma NothingWritten(t: Strings, entries: seq<Entry>, classes: seq<Class>, base: U64, dups: seq<ClassHeader>)
    requires Readable(t)
    ensures var slots := seq(t.hash.capacity, _ => EMPTY);
            ClassesWritten(t, entries, classes, base, slots, dups, 0) && RunsDisjoint(slots) && RunsInside(slots, dups)
  {
    hide Index, Usable, OfName;
    forall i | 0 <= i < |entries| ensures Index(t.hash, entries[i].name) < t.hash.capacity {
      IndexBound(t.hash, entries[i].name);
    }
  }

  lemma ResolveEmpty(base: U64)
    ensures Resolve(base, [EMPTY]) == [(base, base)]
  {
  }

  /** A string without a class still gets a slot, and the reader takes that slot's zeros for one
      class at the table's own address. */
  lemma StringWithoutClass(t: Strings, base: U64, mem: U64 -> Name, strings: seq<Entry>, classes: seq<Class>,
                           slots: seq<ClassHeader>, dups: seq<ClassHeader>, j: nat)
    requires Readable(t) && Holds(t, base, strings, |strings|) && Stored(strings, base, mem)
    requires ClassesWritten(t, strings, classes, base, slots, dups, |classes|) && RunsInside(slots, dups)
    requires j < |strings| && !Seen(classes, strings[j].name, |classes|)
    ensures GetClassCount(t, base, mem, slots, strings[j].name) == 1
    ensures GetClasses(t, base, mem, slots, dups, strings[j].name) == [(base, base)]
    ensures OfName(classes, strings[j].name) == []
  {
    hide Index, GetIndex, OfName, Filled, Holds, Offset, Address, Stored, Usable, Seen, RunsInside;
    var name := strings[j].name;
    ReaderIsExact(t, base, mem, strings, name);
    GroupIffSeen(classes, name);
    ResolveEmpty(base);
    assert NameWritten(t, name, classes, base, slots, dups, |classes|);
  }

  /** For every key at all the reader returns the pairs given for that key, if and only if every
      string of the table names a class. */
  lemma ClassReaderIsExactIff(t: Strings, base: U64, mem: U64 -> Name, strings: seq<Entry>, classes: seq<Class>,
                              slots: seq<ClassHeader>, dups: seq<ClassHeader>)
    requires Readable(t) && Holds(t, base, strings, |strings|) && Stored(strings, base, mem)
    requires ClassesWritten(t, strings, classes, base, slots, dups, |classes|)
    requires Aligned(classes, base) && NamesKnown(strings, classes) && RunsInside(slots, dups)
    ensures (forall key :: Exact(classes, key, GetClasses(t, base, mem, slots, dups, key),
                                 GetClassCount(t, base, mem, slots, key)))
       <==> (forall j :: 0 <= j < |strings| ==> Seen(classes, strings[j].name, |classes|))
  {
    hide GetClasses, GetClassCount, Pairs, OfName, Holds, Stored, Aligned, RunsInside, Usable, NameWritten, Seen,
         Places, PlacesOf;
    if j :| 0 <= j < |strings| && !Seen(classes, strings[j].name, |classes|) {
      var name := strings[j].name;
      StringWithoutClass(t, base, mem, strings, classes, slots, dups, j);
      OfNameSize(classes, name);
      assert !Exact(classes, name, GetClasses(t, base, mem, slots, dups, name),
                    GetClassCount(t, base, mem, slots, name));
    } else {
      forall key
        ensures Exact(classes, key, GetClasses(t, base, mem, slots, dups, key),
                        GetClassCount(t, base, mem, slots, key))
      {
        if !Seen(classes, key, |classes|) {
          forall j | 0 <= j < |strings| ensures strings[j].name != key {
            assert Seen(classes, strings[j].name, |classes|);
          }
        }
        ClassReaderIsExact(t, base, mem, strings, classes, slots, dups, key);
      }
    }
  }

  lemma GroupIffSeen(classes: seq<Class>, key: Name)
    ensures Seen(classes, key, |classes|) <==> OfName(classes, key) != []
  {
    hide OfName;
    var group := OfName(classes, key);
    if group != [] {
      assert group[0].name == key && group[0] in classes;
    }
    if i :| 0 <= i < |classes| && classes[i].name == key {
      OfNameNonempty(classes, key, i);
    }
  }

  /** Another name keeps what it has. */
  lemma OtherNameKept(t: Strings, name: Name, classes: seq<Class>, base: U64, slots: seq<ClassHeader>,
                      dups: seq<ClassHeader>, slots': seq<ClassHeader>, dups': seq<ClassHeader>, n: nat)
    requires Readable(t) && n < |classes| && NameWritten(t, name, classes, base, slots, dups, n)
    requires name != classes[n].name && |slots'| == |slots| && dups <= dups'
    requires slots'[Index(t.hash, name)] == slots[Index(t.hash, name)]
    ensures NameWritten(t, name, classes, base, slots', dups', n + 1)
  {
    hide Index, OfName, Filled, Usable, Seen;
    SeenNext(classes, name, n);
    if Seen(classes, name, n) {
      FilledGrows(OfName(classes, name), base, slots[Index(t.hash, name)], dups, dups');
    }
  }

  /** Names that are done stay done, the new one becomes done. */
  lemma GroupDone(t: Strings, entries: seq<Entry>, classes: seq<Class>, base: U64, slots: seq<ClassHeader>,
                  dups: seq<ClassHeader>, slots': seq<ClassHeader>, dups': seq<ClassHeader>, n: nat, h: nat, k: nat)
    requires Readable(t) && Separates(t.hash, Names(entries)) && n < |classes| && h < |slots|
    requires ClassesWritten(t, entries, classes, base, slots, dups, n) && h == Index(t.hash, classes[n].name)
    requires |slots'| == |slots| && slots' == slots[h := slots'[h]] && dups <= dups'
    requires Filled(OfName(classes, classes[n].name), base, slots'[h], dups')
    requires k < |entries| && entries[k].name == classes[n].name
    ensures ClassesWritten(t, entries, classes, base, slots', dups', n + 1)
  {
    hide Index, OfName, Filled, Usable, Seen;
    SeenNext(classes, classes[n].name, n);
    forall i | 0 <= i < |entries| ensures NameWritten(t, entries[i].name, classes, base, slots', dups', n + 1) {
      assert NameWritten(t, entries[i].name, classes, base, slots, dups, n);
      if entries[i].name != classes[n].name {
        SlotsDiffer(t.hash, entries, i, k);
        OtherNameKept(t, entries[i].name, classes, base, slots, dups, slots', dups', n);
      }
    }
  }

  lemma SlotsDiffer(hash: Table, entries: seq<Entry>, i: nat, k: nat)
    requires Usable(hash) && Separates(hash, Names(entries)) && i < |entries| && k < |entries| && i != k
    ensures Index(hash, entries[i].name) != Index(hash, entries[k].name)
  {
    hide Index, Usable;
    assert Names(entries)[i] == entries[i].name && Names(entries)[k] == entries[k].name;
    assert i < k || k < i;
  }

  lemma SeenNext(classes: seq<Class>, name: Name, n: nat)
    requires n < |classes|
    ensures Seen(classes, name, n + 1) <==> Seen(classes, name, n) || classes[n].name == name
  {
    if Seen(classes, name, n) {
      var i :| 0 <= i < n && classes[i].name == name;
      assert 0 <= i < n + 1;
    } else if classes[n].name == name {
      assert 0 <= n < n + 1;
    }
  }

  /** Meeting a name again changes nothing. */
  lemma GroupSkipped(t: Strings, entries: seq<Entry>, classes: seq<Class>, base: U64, slots: seq<ClassHeader>,
                     dups: seq<ClassHeader>, n: nat, k: nat)
    requires Readable(t) && n < |classes| && k < |entries| && entries[k].name == classes[n].name
    requires ClassesWritten(t, entries, classes, base, slots, dups, n)
    requires slots[Index(t.hash, classes[n].name)] != EMPTY
    ensures ClassesWritten(t, entries, classes, base, slots, dups, n + 1)
  {
    hide Index, OfName, Filled, Usable;
    assert Seen(classes, entries[k].name, n);
    forall i | 0 <= i < |entries| ensures Seen(classes, entries[i].name, n + 1) <==> Seen(classes, entries[i].name, n) {
      SeenNext(classes, entries[i].name, n);
    }
  }

  ghost predicate RunsInside(slots: seq<ClassHeader>, dups: seq<ClassHeader>) {
    forall h :: 0 <= h < |slots| && slots[h].IsDuplicate() ==>
      0 <= slots[h].hiOffset <= slots[h].hiOffset + slots[h].DuplicateCount() <= |dups|
  }
}
