/** `objc_stringhash_t`: the precomputed string table that is written once and then only read. */
module StringTable {
  import opened Wrappers
  import opened Bits
  import opened Hash64
  import opened PerfectHash

  /** The messages that the writers return. NoVerdict: the search was cut off. Undefined: the code
      goes on to do what C leaves undefined. */
  datatype Error = TooSmall | HashFailed | OffsetTooBig | ClassListBusted | NoVerdict | Undefined

  /** A string of the input: its characters and the address where they are stored. */
  datatype Entry = Entry(name: Name, addr: U64)

  /** sizeof(objc_stringhash_t). */
  const HEADER_SIZE: nat := 1056

  /** The check byte: three bits of the first character and five bits of the length. */
  function CheckByte(key: Name): nat { (if |key| > 0 then key[0] % 8 else 0) * 32 + |key| % 32 }

  /** The check byte tells two names apart iff their lengths differ modulo 32 or their first
      characters, a missing one counting as zero, modulo 8. */
  lemma CheckByteTells(k: Name, l: Name)
    ensures CheckByte(k) < 256
    ensures CheckByte(k) == CheckByte(l) <==> |k| % 32 == |l| % 32 && First(k) % 8 == First(l) % 8
  {
  }

  function First(k: Name): nat { if |k| > 0 then k[0] else 0 }

  /** addr - base as a signed 64-bit number. */
  function Offset(addr: U64, base: U64): int {
    var d := Sub(addr, base);
    if d < 0x8000_0000_0000_0000 then d else d - M64
  }

  /** base + offset in 64-bit arithmetic. */
  function Address(base: U64, offset: int): U64 { (base + offset) % M64 }

  /** (int32_t)offset: the low 32 bits as a signed number. */
  function Narrow(offset: int): int {
    var low := offset % 0x1_0000_0000;
    if low < 0x8000_0000 then low else low - 0x1_0000_0000
  }

  /** The test (offset << 32) >> 32 == offset. */
  predicate Fits32(offset: int) { Narrow(offset) == offset }

  lemma Fits32Iff(offset: int)
    ensures Fits32(offset) <==> -0x8000_0000 <= offset < 0x8000_0000
  {
  }

  /** Adding an offset to the base undoes taking it; the offset is zero only at the base. */
  lemma OffsetUndone(addr: U64, base: U64)
    ensures Address(base, Offset(addr, base)) == addr
    ensures Offset(addr, base) == 0 <==> addr == base
    ensures -0x8000_0000_0000_0000 <= Offset(addr, base) < 0x8000_0000_0000_0000
  {
  }

  function Names(strings: seq<Entry>): (r: seq<Name>)
    ensures |r| == |strings| && forall i :: 0 <= i < |r| ==> r[i] == strings[i].name
  {
    seq(|strings|, i requires 0 <= i < |strings| => strings[i].name)
  }

  /** The table: the hash, and per slot a check byte and an offset. */
  datatype Strings = Strings(hash: Table, checkbytes: seq<nat>, offsets: seq<int>)

  /** A zeroed table. */
  const ZERO: Strings := Strings(Table(0, 0, 0, 0, 0, [], []), [], [])

  ghost predicate Readable(t: Strings) {
    Usable(t.hash) && |t.checkbytes| == |t.offsets| == t.hash.capacity
  }

  /** `getIndex`. `mem(a)` is the C string stored at address a. */
  function GetIndex(t: Strings, base: U64, mem: U64 -> Name, key: Name): (r: Option<nat>)
    requires Readable(t)
    ensures r.Some? ==> r.value < |t.offsets|
  {
    IndexBound(t.hash, key);
    var h := Index(t.hash, key);
    if t.checkbytes[h] != CheckByte(key) then None
    else if t.offsets[h] == 0 then None
    else if mem(Address(base, t.offsets[h])) != key then None
    else Some(h)
  }

  /** The first n strings are in the table and nothing else is. */
  ghost predicate Holds(t: Strings, base: U64, strings: seq<Entry>, n: nat)
    requires Readable(t) && n <= |strings|
  {
    && (forall i :: 0 <= i < n ==>
          var h := Index(t.hash, strings[i].name);
          && h < |t.offsets| && t.offsets[h] == Offset(strings[i].addr, base)
          && t.checkbytes[h] == CheckByte(strings[i].name))
    && (forall h :: 0 <= h < |t.offsets| && t.offsets[h] != 0 ==>
          exists i :: 0 <= i < n && Index(t.hash, strings[i].name) == h)
  }

  /** Every string is stored at its address and none at the table's own. */
  ghost predicate Stored(strings: seq<Entry>, base: U64, mem: U64 -> Name) {
    forall i :: 0 <= i < |strings| ==> mem(strings[i].addr) == strings[i].name && strings[i].addr != base
  }

  /** The reader finds a slot for exactly the strings that were written, and at that slot the
      offset of that string. The check byte rejects no member; empty slots match nothing. */
  lemma ReaderIsExact(t: Strings, base: U64, mem: U64 -> Name, strings: seq<Entry>, key: Name)
    requires Readable(t) && Holds(t, base, strings, |strings|) && Stored(strings, base, mem)
    ensures GetIndex(t, base, mem, key).Some? <==> exists i :: 0 <= i < |strings| && strings[i].name == key
    ensures forall i :: 0 <= i < |strings| && strings[i].name == key ==>
              var h := Index(t.hash, key);
              && GetIndex(t, base, mem, key) == Some(h) && h < |t.offsets|
              && Address(base, t.offsets[h]) == strings[i].addr
  {
    hide Index, CheckByte, Offset, Address, Usable;
    IndexBound(t.hash, key);
    forall i | 0 <= i < |strings| && strings[i].name == key
      ensures GetIndex(t, base, mem, key) == Some(Index(t.hash, key))
      ensures Address(base, t.offsets[Index(t.hash, key)]) == strings[i].addr
    {
      OffsetUndone(strings[i].addr, base);
    }
    if GetIndex(t, base, mem, key).Some? {
      var h := Index(t.hash, key);
      var i :| 0 <= i < |strings| && Index(t.hash, strings[i].name) == h;
      OffsetUndone(strings[i].addr, base);
      assert strings[i].name == key;
    }
  }

  /** What `size()` counts of a readable table: the header, tab, the check bytes and the offsets. */
  lemma SizeIs(t: Strings)
    requires Readable(t)
    ensures HEADER_SIZE + t.hash.mask + 1 + t.hash.capacity + t.hash.capacity * 4
            == HEADER_SIZE + |t.hash.tab| + |t.checkbytes| + 4 * |t.offsets|
  {
    hide IsPow2, AllBelow, Pow2;
  }

  /** Writing one more string into its own slot. */
  lemma WriteOne(t: Strings, base: U64, strings: seq<Entry>, n: nat)
    requires Readable(t) && Separates(t.hash, Names(strings)) && n < |strings| && Holds(t, base, strings, n)
    ensures var h := Index(t.hash, strings[n].name);
            && h < |t.offsets|
            && var t' := t.(offsets := t.offsets[h := Offset(strings[n].addr, base)],
                            checkbytes := t.checkbytes[h := CheckByte(strings[n].name)]);
            Readable(t') && Holds(t', base, strings, n + 1)
  {
    hide Index, CheckByte, Offset, Usable;
    IndexBound(t.hash, strings[n].name);
    var h := Index(t.hash, strings[n].name);
    var t' := t.(offsets := t.offsets[h := Offset(strings[n].addr, base)],
                 checkbytes := t.checkbytes[h := CheckByte(strings[n].name)]);
    forall i | 0 <= i < n ensures Index(t.hash, strings[i].name) != h {
      assert Index(t.hash, Names(strings)[i]) != Index(t.hash, Names(strings)[n]);
    }
    forall s | 0 <= s < |t'.offsets| && t'.offsets[s] != 0
      ensures exists i :: 0 <= i < n + 1 && Index(t'.hash, strings[i].name) == s
    {
      if s == h {
        assert Index(t'.hash, strings[n].name) == s;
      } else {
        var i :| 0 <= i < n && Index(t.hash, strings[i].name) == s;
        assert Index(t'.hash, strings[i].name) == s;
      }
    }
  }

  class StringHash {
    var t: Strings

    constructor ()
      ensures t == ZERO
    {
      t := ZERO;
    }

    /** `size()`. */
    function Size(): nat
      reads this
    {
      HEADER_SIZE + t.hash.mask + 1 + t.hash.capacity + t.hash.capacity * 4
    }

    /** `write`: None means success. With no strings at all the header is zeroed; a single string
        always gets a table of one slot, with a shift by 64 that the hash of the string then uses,
        unless even that table does not fit the section. */
    method Write(base: U64, remaining: nat, strings: seq<Entry>, fuel: nat) returns (err: Option<Error>)
      requires |strings| <= 0x4000_0000
      modifies this
      ensures fuel > 0 ==>
                (err == Some(Undefined) <==> |strings| == 1 && HEADER_SIZE <= remaining && Size() <= remaining)
      ensures err == Some(Undefined) ==> |strings| == 1 && t.hash.shift == 64
      ensures |strings| == 1 && fuel > 0 ==> err == Some(Undefined) || err == Some(TooSmall)
      ensures strings == [] && HEADER_SIZE <= remaining ==> err == None && t == ZERO
      ensures err == Some(TooSmall) ==> HEADER_SIZE > remaining || Size() > remaining
      ensures err == Some(OffsetTooBig) ==>
                exists i :: 0 <= i < |strings| && !Fits32(Offset(strings[i].addr, base))
      ensures err == Some(HashFailed) ==>
                exists k: nat ::
                  Pow2(k) < 2 * |strings| && Hopeless(Names(strings), k) && Hopeless(Names(strings), k + 1)
      ensures strings != [] && !NoTwice(Names(strings)) && HEADER_SIZE <= remaining ==> err == Some(NoVerdict)
      ensures err != Some(ClassListBusted)
      ensures strings != [] && err == None ==> Readable(t) && Holds(t, base, strings, |strings|) && Size() <= remaining
      ensures strings != [] && err == None ==> Separates(t.hash, Names(strings))
      ensures strings != [] && err == None ==> forall i :: 0 <= i < |strings| ==> Fits32(Offset(strings[i].addr, base))
    {
      hide Index, CheckByte, Offset, Usable, Separates, IsPow2, AllBelow, Fits32, Hopeless, NoTwice, Pow2;
      if HEADER_SIZE > remaining {
        return Some(TooSmall);
      }
      if |strings| == 0 {
        t := ZERO;
        return None;
      }
      var status, hash := MakePerfect(Names(strings), fuel);
      if status == GaveUp {
        return Some(HashFailed);
      }
      if status == OutOfFuel {
        return Some(NoVerdict);
      }
      t := t.(hash := hash);
      if Size() > remaining {
        return Some(TooSmall);
      }
      if hash.capacity == 1 {
        return Some(Undefined);
      }
      t := t.(offsets := seq(hash.capacity, _ => 0));
      t := t.(checkbytes := seq(hash.capacity, _ => 0));
      err := Fill(base, strings);
    }

    /** The last loop of `write`: offsets and check bytes of the strings. */
    method Fill(base: U64, strings: seq<Entry>) returns (err: Option<Error>)
      requires Readable(t) && Separates(t.hash, Names(strings)) && Holds(t, base, strings, 0)
      modifies this
      ensures t.hash == old(t.hash) && Readable(t)
      ensures err == None ==> Holds(t, base, strings, |strings|)
      ensures err == None <==> forall i :: 0 <= i < |strings| ==> Fits32(Offset(strings[i].addr, base))
      ensures err != None ==> err == Some(OffsetTooBig)
    {
      hide Index, CheckByte, Offset, Usable, Separates, Fits32;
      for n := 0 to |strings|
        invariant t.hash == old(t.hash) && Readable(t) && Holds(t, base, strings, n)
        invariant forall i :: 0 <= i < n ==> Fits32(Offset(strings[i].addr, base))
      {
        var offset := Offset(strings[n].addr, base);
        if !Fits32(offset) {
          return Some(OffsetTooBig);
        }
        WriteOne(t, base, strings, n);
        var h := Index(t.hash, strings[n].name);
        t := t.(offsets := t.offsets[h := offset], checkbytes := t.checkbytes[h := CheckByte(strings[n].name)]);
      }
      err := None;
    }

    /** `getIndex` on the written table. */
    method Get(base: U64, mem: U64 -> Name, key: Name, ghost strings: seq<Entry>) returns (index: Option<nat>)
      requires Readable(t) && Holds(t, base, strings, |strings|) && Stored(strings, base, mem)
      ensures index.Some? <==> exists i :: 0 <= i < |strings| && strings[i].name == key
      ensures index.Some? ==> index.value < |t.offsets| && mem(Address(base, t.offsets[index.value])) == key
    {
      ReaderIsExact(t, base, mem, strings, key);
      index := GetIndex(t, base, mem, key);
    }
  }
}
