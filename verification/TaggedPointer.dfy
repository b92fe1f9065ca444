/** The tagged pointer codec: a tag and a payload in one 64-bit word, obfuscated, in three layouts. */
module TaggedPointer {
  import opened Words
  import SplitLayout
  import MsbLayout
  import LsbLayout

  datatype Layout = Split | Msb | Lsb

  /** The process-wide settings: the obfuscator and the permutation of the basic tags. */
  datatype Runtime = Runtime(layout: Layout, obfuscator: Word, permutation: seq<Word>) {
    /** A permutation of 0..7 fixing 7, and an obfuscator that leaves alone the bits by which a
        tagged pointer is recognised. */
    ghost predicate Valid() {
      match layout
      case Split => IsPermutation(permutation) && Clear(obfuscator)
      case Msb => obfuscator & 0x8000_0000_0000_0000 == 0
      case Lsb => obfuscator & 1 == 0
    }
  }

  // ---------------------------------------------------------------- the permutation

  ghost predicate IsPermutation(p: seq<Word>) {
    && |p| == 8 && p[7] == 7
    && (forall i :: 0 <= i < 8 ==> p[i] < 8)
    && (forall i, j :: 0 <= i < j < 8 ==> p[i] != p[j])
  }

  /** A tag as an index. */
  function Number(tag: Word): (n: nat)
    requires tag < 8
    ensures n < 8
  {
    if tag == 0 then 0 else if tag == 1 then 1 else if tag == 2 then 2 else if tag == 3 then 3
    else if tag == 4 then 4 else if tag == 5 then 5 else if tag == 6 then 6 else 7
  }

  function Tag(n: nat): (tag: Word)
    requires n < 8
    ensures tag < 8 && Number(tag) == n
  {
    if n == 0 then 0 else if n == 1 then 1 else if n == 2 then 2 else if n == 3 then 3
    else if n == 4 then 4 else if n == 5 then 5 else if n == 6 then 6 else 7
  }

  /** `_objc_basicTagToObfuscatedTag`. */
  function Obfuscated(p: seq<Word>, tag: Word): Word
    requires |p| == 8 && tag < 8
  {
    p[Number(tag)]
  }

  /** What the search finds from position i on. */
  function Search(p: seq<Word>, tag: Word, i: nat): (r: Word)
    requires |p| == 8 && i <= 7
    ensures r < 8
    decreases 7 - i
  {
    if i == 7 then 7 else if p[i] == tag then Tag(i) else Search(p, tag, i + 1)
  }

  /** `_objc_obfuscatedTagToBasicTag`. */
  method BasicTag(p: seq<Word>, tag: Word) returns (r: Word)
    requires IsPermutation(p) && tag < 8
    ensures r < 8 && Obfuscated(p, r) == tag && r == Search(p, tag, 0)
  {
    var i := 0;
    while i < 7
      invariant i <= 7 && Search(p, tag, 0) == Search(p, tag, i)
    {
      if p[i] == tag {
        r := Tag(i);
        return;
      }
      i := i + 1;
    }
    PermutationInverse(p, tag);
    r := 7;
  }

  /** From any place at or before the tag's, the search finds it. */
  lemma {:induction false} SearchFinds(p: seq<Word>, k: nat, i: nat)
    requires IsPermutation(p) && i <= k < 8
    ensures i <= 7 && Search(p, p[k], i) == Tag(k)
    decreases k - i
  {
    if i < k {
      SearchFinds(p, k, i + 1);
    }
  }

  /** A permutation of eight values reaches each of them. */
  lemma Reached(p: seq<Word>, tag: Word) returns (k: nat)
    requires IsPermutation(p) && tag < 8
    ensures k < 8 && p[k] == tag
  {
    assert p[0] < 8 && p[1] < 8 && p[2] < 8 && p[3] < 8 && p[4] < 8 && p[5] < 8 && p[6] < 8;
    k := if p[0] == tag then 0 else if p[1] == tag then 1 else if p[2] == tag then 2 else if p[3] == tag then 3
         else if p[4] == tag then 4 else if p[5] == tag then 5 else if p[6] == tag then 6 else 7;
  }

  lemma NumberTag(tag: Word)
    requires tag < 8
    ensures Tag(Number(tag)) == tag
  {
  }

  /** Searching undoes permuting and permuting undoes searching; 7 stays 7. */
  lemma PermutationInverse(p: seq<Word>, tag: Word)
    requires IsPermutation(p) && tag < 8
    ensures Search(p, Obfuscated(p, tag), 0) == tag
    ensures Obfuscated(p, Search(p, tag, 0)) == tag
    ensures Obfuscated(p, tag) < 8
    ensures Obfuscated(p, tag) == 7 <==> tag == 7
    ensures Search(p, tag, 0) == 7 <==> tag == 7
  {
    hide Search;
    SearchFinds(p, Number(tag), 0);
    NumberTag(tag);
    var k := Reached(p, tag);
    SearchFinds(p, k, 0);
    SearchFinds(p, 7, 0);
  }

  // ---------------------------------------------------------------- obfuscation

  function Flip(value: Word, o: Word): Word { value ^ o }

  /** No bit of the no-obfuscation mask is set. */
  predicate Clear(o: Word) { o & 0xc000_0000_0000_0007 == 0 }

  /** Replace the three bits of the basic tag. */
  function SetIndex(value: Word, tag: Word): Word { (value & !7) | tag }

  predicate Plain(value: Word) { value & 0xc000_0000_0000_0007 == 0xc000_0000_0000_0007 }

  /** `_objc_encodeTaggedPointer`. */
  function Encode(rt: Runtime, ptr: Word): Word
    requires rt.Valid()
  {
    var value := Flip(rt.obfuscator, ptr);
    if !rt.layout.Split? then value
    else if Plain(value) then ptr
    else
      IndexBelow8(value);
      SetIndex(value, Obfuscated(rt.permutation, SplitLayout.Index(value)))
  }

  /** `_objc_decodeTaggedPointer_noPermute`. */
  function DecodeNoPermute(rt: Runtime, ptr: Word): Word {
    if rt.layout.Split? && Plain(ptr) then ptr else Flip(ptr, rt.obfuscator)
  }

  /** `_objc_decodeTaggedPointer`. */
  function Decode(rt: Runtime, ptr: Word): Word
    requires rt.Valid()
  {
    var value := DecodeNoPermute(rt, ptr);
    if !rt.layout.Split? then value
    else SetIndex(value, Search(rt.permutation, SplitLayout.Index(value), 0))
  }

  lemma IndexBelow8(value: Word)
    ensures SplitLayout.Index(value) < 8
  {
  }

  lemma SetIndexBits(value: Word, tag: Word)
    requires tag < 8
    ensures ((value & !7) | tag) & 7 == tag
    ensures ((((value & !7) | tag) & !7) | (value & 7)) == value
  {
  }

  lemma ObfuscateBits(value: Word, tag: Word, o: Word)
    requires tag < 8 && o & 0xc000_0000_0000_0007 == 0
    ensures ((value & !7) | tag) ^ o == ((value ^ o) & !7) | tag
  {
  }

  lemma ObfuscateMask(value: Word, o: Word)
    requires o & 0xc000_0000_0000_0007 == 0
    ensures (value ^ o) & 0xc000_0000_0000_0007 == value & 0xc000_0000_0000_0007
    ensures (value ^ o) & 7 == value & 7
  {
  }

  lemma PlainBits(value: Word, tag: Word)
    requires tag < 8 && (tag == 7 <==> value & 7 == 7)
    ensures ((value & !7) | tag) & 0xc000_0000_0000_0007 == 0xc000_0000_0000_0007
       <==> value & 0xc000_0000_0000_0007 == 0xc000_0000_0000_0007
  {
  }

  lemma PlainKeeps(value: Word)
    requires Plain(value)
    ensures SplitLayout.Index(value) == 7 && SetIndex(value, 7) == value
  {
  }

  lemma FlipTwice(x: Word, o: Word)
    ensures Flip(Flip(x, o), o) == x && Flip(o, x) == Flip(x, o)
  {
  }

  /** What replacing the basic tag does. */
  lemma SetIndexLaws(value: Word, tag: Word)
    requires tag < 8
    ensures SplitLayout.Index(SetIndex(value, tag)) == tag
    ensures SetIndex(SetIndex(value, tag), SplitLayout.Index(value)) == value
  {
    SetIndexBits(value, tag);
  }

  lemma SetIndexPlain(value: Word, tag: Word)
    requires tag < 8 && (tag == 7 <==> SplitLayout.Index(value) == 7)
    ensures Plain(SetIndex(value, tag)) <==> Plain(value)
  {
    PlainBits(value, tag);
  }

  /** The obfuscator leaves the tag and the test for plain words alone. */
  lemma FlipLaws(value: Word, o: Word)
    requires Clear(o)
    ensures SplitLayout.Index(Flip(value, o)) == SplitLayout.Index(value)
    ensures Plain(Flip(value, o)) <==> Plain(value)
  {
    ObfuscateMask(value, o);
  }

  lemma SetIndexFlip(value: Word, tag: Word, o: Word)
    requires tag < 8 && Clear(o)
    ensures Flip(SetIndex(value, tag), o) == SetIndex(Flip(value, o), tag)
  {
    hide SetIndex;
    SetIndexXor(value, tag, o);
  }

  lemma SetIndexXor(value: Word, tag: Word, o: Word)
    requires tag < 8 && o & 0xc000_0000_0000_0007 == 0
    ensures SetIndex(value, tag) ^ o == SetIndex(value ^ o, tag)
  {
    ObfuscateBits(value, tag, o);
  }

  /** Replacing the tag of a word and obfuscating it, with the laws of both. */
  lemma SwapTag(value: Word, tag: Word, o: Word)
    requires tag < 8 && Clear(o) && (tag == 7 <==> SplitLayout.Index(value) == 7)
    ensures SplitLayout.Index(Flip(value, o)) == SplitLayout.Index(value)
    ensures Plain(Flip(value, o)) <==> Plain(value)
    ensures Plain(SetIndex(value, tag)) <==> Plain(value)
    ensures Plain(SetIndex(Flip(value, o), tag)) <==> Plain(value)
    ensures Plain(value) ==> SetIndex(value, tag) == value
    ensures Flip(SetIndex(Flip(value, o), tag), o) == SetIndex(value, tag)
    ensures Flip(SetIndex(value, tag), o) == SetIndex(Flip(value, o), tag)
    ensures Flip(o, SetIndex(Flip(value, o), tag)) == SetIndex(value, tag)
    ensures SplitLayout.Index(SetIndex(value, tag)) == tag
    ensures SplitLayout.Index(SetIndex(Flip(value, o), tag)) == tag
    ensures SetIndex(SetIndex(value, tag), SplitLayout.Index(value)) == value
    ensures Flip(Flip(value, o), o) == value && Flip(o, value) == Flip(value, o)
  {
    hide SplitLayout.Index, SetIndex, Plain, Clear, Flip;
    FlipTwice(value, o);
    FlipTwice(SetIndex(Flip(value, o), tag), o);
    FlipLaws(value, o);
    SetIndexLaws(value, tag);
    SetIndexLaws(Flip(value, o), tag);
    SetIndexPlain(value, tag);
    SetIndexPlain(Flip(value, o), tag);
    SetIndexFlip(value, tag, o);
    SetIndexFlip(Flip(value, o), tag, o);
    if Plain(value) {
      PlainKeeps(value);
    }
  }

  /** Decoding undoes encoding on every word. */
  lemma DecodeEncode(rt: Runtime, ptr: Word)
    requires rt.Valid()
    ensures Decode(rt, Encode(rt, ptr)) == ptr
  {
    hide Search, SetIndex, Plain, Obfuscated, Clear, Flip, SplitLayout.Index;
    FlipTwice(ptr, rt.obfuscator);
    if rt.layout.Split? {
      var tag := PermutedTag(rt, ptr);
      SwapTag(ptr, tag, rt.obfuscator);
    }
  }

  /** The tag the encoder puts in place of a word's. */
  lemma PermutedTag(rt: Runtime, ptr: Word) returns (tag: Word)
    requires rt.Valid() && rt.layout.Split?
    ensures SplitLayout.Index(ptr) < 8
    ensures tag < 8 && tag == Obfuscated(rt.permutation, SplitLayout.Index(ptr))
    ensures Search(rt.permutation, tag, 0) == SplitLayout.Index(ptr)
    ensures tag == 7 <==> SplitLayout.Index(ptr) == 7
  {
    hide Search, Obfuscated, SplitLayout.Index;
    IndexBelow8(ptr);
    PermutationInverse(rt.permutation, SplitLayout.Index(ptr));
    tag := Obfuscated(rt.permutation, SplitLayout.Index(ptr));
  }

  /** Without the inverse permutation the decoder leaves the permuted tag. */
  lemma NoPermuteEncode(rt: Runtime, ptr: Word) returns (tag: Word)
    requires rt.Valid()
    ensures rt.layout.Split? ==>
              && tag < 8 && (tag == 7 <==> SplitLayout.Index(ptr) == 7)
              && DecodeNoPermute(rt, Encode(rt, ptr)) == SetIndex(ptr, tag)
    ensures !rt.layout.Split? ==> DecodeNoPermute(rt, Encode(rt, ptr)) == ptr
  {
    hide Search, SetIndex, Plain, Obfuscated, Clear, Flip, SplitLayout.Index;
    FlipTwice(ptr, rt.obfuscator);
    tag := 7;
    if rt.layout.Split? {
      tag := PermutedTag(rt, ptr);
      SwapTag(ptr, tag, rt.obfuscator);
    }
  }

  /** Encoding undoes decoding on every word. */
  lemma EncodeDecode(rt: Runtime, ptr: Word)
    requires rt.Valid()
    ensures Encode(rt, Decode(rt, ptr)) == ptr
  {
    hide Search, SetIndex, Plain, Obfuscated, Clear, Flip, SplitLayout.Index;
    FlipTwice(ptr, rt.obfuscator);
    FlipTwice(Flip(ptr, rt.obfuscator), rt.obfuscator);
    if rt.layout.Split? {
      IndexBelow8(ptr);
      var index := SplitLayout.Index(ptr);
      var tag := Search(rt.permutation, index, 0);
      PermutationInverse(rt.permutation, index);
      SwapTag(ptr, tag, rt.obfuscator);
      FlipTwice(SetIndex(ptr, tag), rt.obfuscator);
    }
  }

  // ---------------------------------------------------------------- tag and payload

  /** Tags 0..6 have 60 payload bits, tags 8..263 have 52. */
  predicate ValidTag(tag: Word) { tag <= 6 || 8 <= tag <= 263 }

  /** The word before obfuscation. */
  function Pack(l: Layout, tag: Word, v: Word): Word {
    if tag <= 6 then
      match l
      case Split => SplitLayout.Basic(tag, v) case Msb => MsbLayout.Basic(tag, v) case Lsb => LsbLayout.Basic(tag, v)
    else
      match l case Split => SplitLayout.Ext(tag, v) case Msb => MsbLayout.Ext(tag, v) case Lsb => LsbLayout.Ext(tag, v)
  }

  function Index(l: Layout, w: Word): Word {
    match l case Split => SplitLayout.Index(w) case Msb => MsbLayout.Index(w) case Lsb => LsbLayout.Index(w)
  }

  function ExtTag(l: Layout, w: Word): Word {
    match l case Split => SplitLayout.ExtTag(w) case Msb => MsbLayout.ExtTag(w) case Lsb => LsbLayout.ExtTag(w)
  }

  function UnpackTag(l: Layout, w: Word): Word {
    if Index(l, w) == 7 then ExtTag(l, w) else Index(l, w)
  }

  function UnpackValue(l: Layout, w: Word): Word {
    if Index(l, w) == 7 then
      match l
      case Split => SplitLayout.ExtPayload(w) case Msb => MsbLayout.ExtPayload(w) case Lsb => LsbLayout.ExtPayload(w)
    else
      match l case Split => SplitLayout.Payload(w) case Msb => MsbLayout.Payload(w) case Lsb => LsbLayout.Payload(w)
  }

  function UnpackSigned(l: Layout, w: Word): Word {
    if Index(l, w) == 7 then
      match l
      case Split => SplitLayout.ExtSignedPayload(w)
      case Msb => MsbLayout.ExtSignedPayload(w)
      case Lsb => LsbLayout.ExtSignedPayload(w)
    else
      match l
      case Split => SplitLayout.SignedPayload(w)
      case Msb => MsbLayout.SignedPayload(w)
      case Lsb => LsbLayout.SignedPayload(w)
  }

  /** `_objc_isTaggedPointer`. */
  predicate IsTagged(l: Layout, w: Word) {
    match l case Split => SplitLayout.IsTagged(w) case Msb => MsbLayout.IsTagged(w) case Lsb => LsbLayout.IsTagged(w)
  }

  /** `_objc_makeTaggedPointer`. */
  function Make(rt: Runtime, tag: Word, v: Word): Word
    requires rt.Valid()
  {
    Encode(rt, Pack(rt.layout, tag, v))
  }

  /** `_objc_getTaggedPointerTag`. */
  function GetTag(rt: Runtime, ptr: Word): Word
    requires rt.Valid()
  {
    UnpackTag(rt.layout, Decode(rt, ptr))
  }

  /** `_objc_getTaggedPointerValue`. */
  function GetValue(rt: Runtime, ptr: Word): Word { UnpackValue(rt.layout, DecodeNoPermute(rt, ptr)) }

  /** `_objc_getTaggedPointerSignedValue`. */
  function GetSignedValue(rt: Runtime, ptr: Word): Word { UnpackSigned(rt.layout, DecodeNoPermute(rt, ptr)) }

  /** The payload bits a tag has room for. */
  function Truncated(tag: Word, v: Word): Word { if tag <= 6 then Low60(v) else Low52(v) }

  function SignExtended(tag: Word, v: Word): Word { if tag <= 6 then Extend60(Low60(v)) else Extend52(Low52(v)) }

  /** A packed word gives back its tag and payload, and every word with the tag bit is the packing
      of its tag and payload. */
  lemma PackUnpack(l: Layout, tag: Word, v: Word, w: Word)
    ensures ValidTag(tag) ==>
              && IsTagged(l, Pack(l, tag, v))
              && UnpackTag(l, Pack(l, tag, v)) == tag
              && UnpackValue(l, Pack(l, tag, v)) == Truncated(tag, v)
              && UnpackSigned(l, Pack(l, tag, v)) == SignExtended(tag, v)
    ensures IsTagged(l, w) ==> ValidTag(UnpackTag(l, w)) && Pack(l, UnpackTag(l, w), UnpackValue(l, w)) == w
  {
    hide Low60, Low52, Extend60, Extend52,
      SplitLayout.Basic, SplitLayout.Ext, SplitLayout.Index, SplitLayout.ExtTag, SplitLayout.Payload,
      SplitLayout.SignedPayload, SplitLayout.ExtPayload, SplitLayout.ExtSignedPayload, SplitLayout.IsTagged,
      MsbLayout.Basic, MsbLayout.Ext, MsbLayout.Index, MsbLayout.ExtTag, MsbLayout.Payload,
      MsbLayout.SignedPayload, MsbLayout.ExtPayload, MsbLayout.ExtSignedPayload, MsbLayout.IsTagged,
      LsbLayout.Basic, LsbLayout.Ext, LsbLayout.Index, LsbLayout.ExtTag, LsbLayout.Payload,
      LsbLayout.SignedPayload, LsbLayout.ExtPayload, LsbLayout.ExtSignedPayload, LsbLayout.IsTagged;
    match l
    case Split => SplitLayout.FieldLaws(tag, v, w);
    case Msb => MsbLayout.FieldLaws(tag, v, w);
    case Lsb => LsbLayout.FieldLaws(tag, v, w);
  }

  /** In the split layout the payload does not see the three bits of the basic tag. */
  lemma PayloadIgnoresTag(w: Word, tag: Word)
    requires tag < 8 && (tag == 7 <==> SplitLayout.Index(w) == 7)
    ensures UnpackValue(Split, SetIndex(w, tag)) == UnpackValue(Split, w)
    ensures UnpackSigned(Split, SetIndex(w, tag)) == UnpackSigned(Split, w)
  {
    hide SetIndex, SplitLayout.Index, SplitLayout.Payload, SplitLayout.ExtPayload, SplitLayout.SignedPayload,
      SplitLayout.ExtSignedPayload, Extend60, Extend52;
    SetIndexLaws(w, tag);
    PayloadKept(w, tag);
    ExtPayloadKept(w, tag);
    SplitLayout.SignedExtends(w);
    SplitLayout.SignedExtends(SetIndex(w, tag));
    SplitLayout.ExtSignedExtends(w);
    SplitLayout.ExtSignedExtends(SetIndex(w, tag));
  }

  lemma PayloadKept(w: Word, tag: Word)
    requires tag < 8
    ensures SplitLayout.Payload(SetIndex(w, tag)) == SplitLayout.Payload(w)
  {
    hide SetIndex;
    PayloadBits(w, tag);
  }

  lemma ExtPayloadKept(w: Word, tag: Word)
    requires tag < 8
    ensures SplitLayout.ExtPayload(SetIndex(w, tag)) == SplitLayout.ExtPayload(w)
  {
    hide SetIndex;
    ExtPayloadBits(w, tag);
  }

  lemma PayloadBits(w: Word, tag: Word)
    requires tag < 8
    ensures (SetIndex(w, tag) << 1) >> 4 == (w << 1) >> 4
  {
  }

  lemma ExtPayloadBits(w: Word, tag: Word)
    requires tag < 8
    ensures (SetIndex(w, tag) << 9) >> 12 == (w << 9) >> 12
  {
  }

  lemma TagBitBits(value: Word, tag: Word, o: Word)
    requires tag < 8 && Clear(o)
    ensures SplitLayout.IsTagged(SetIndex(Flip(value, o), tag)) <==> SplitLayout.IsTagged(value)
  {
    assert o & 0x8000_0000_0000_0000 == 0;
    assert (((value ^ o) & !7) | tag) & 0x8000_0000_0000_0000 == (value ^ o) & 0x8000_0000_0000_0000;
  }

  lemma FlipKeepsTagBit(value: Word, o: Word)
    ensures o & 0x8000_0000_0000_0000 == 0 ==> (MsbLayout.IsTagged(Flip(o, value)) <==> MsbLayout.IsTagged(value))
    ensures o & 1 == 0 ==> (LsbLayout.IsTagged(Flip(o, value)) <==> LsbLayout.IsTagged(value))
  {
  }

  /** The obfuscator leaves the tag bit alone. */
  lemma EncodeKeepsTagBit(rt: Runtime, ptr: Word)
    requires rt.Valid()
    ensures IsTagged(rt.layout, Encode(rt, ptr)) <==> IsTagged(rt.layout, ptr)
  {
    hide Obfuscated, SetIndex, Plain, Clear, Flip, SplitLayout.Index, SplitLayout.IsTagged, MsbLayout.IsTagged,
      LsbLayout.IsTagged;
    FlipTwice(ptr, rt.obfuscator);
    FlipKeepsTagBit(ptr, rt.obfuscator);
    if rt.layout.Split? {
      var tag := PermutedTag(rt, ptr);
      FlipLaws(ptr, rt.obfuscator);
      TagBitBits(ptr, tag, rt.obfuscator);
    }
  }

  /** Taking a tagged pointer apart gives the tag and the payload it was made of, the payload
      truncated to the 60 or 52 bits the tag leaves. */
  lemma MakeThenGet(rt: Runtime, tag: Word, v: Word)
    requires rt.Valid() && ValidTag(tag)
    ensures IsTagged(rt.layout, Make(rt, tag, v))
    ensures GetTag(rt, Make(rt, tag, v)) == tag
    ensures GetValue(rt, Make(rt, tag, v)) == Truncated(tag, v)
    ensures GetSignedValue(rt, Make(rt, tag, v)) == SignExtended(tag, v)
  {
    hide Encode, Decode, DecodeNoPermute, Pack, UnpackTag, UnpackValue, UnpackSigned, SetIndex, IsTagged, Truncated,
      SignExtended, SplitLayout.Index;
    var ptr := Pack(rt.layout, tag, v);
    PackUnpack(rt.layout, tag, v, ptr);
    EncodeKeepsTagBit(rt, ptr);
    DecodeEncode(rt, ptr);
    var t := NoPermuteEncode(rt, ptr);
    if rt.layout.Split? {
      PayloadIgnoresTag(ptr, t);
    }
  }

  /** Every tagged word has a valid tag, and making a tagged pointer of its tag and payload gives
      the word back. */
  lemma GetThenMake(rt: Runtime, ptr: Word)
    requires rt.Valid() && IsTagged(rt.layout, ptr)
    ensures ValidTag(GetTag(rt, ptr))
    ensures Make(rt, GetTag(rt, ptr), GetValue(rt, ptr)) == ptr
  {
    hide Encode, Decode, DecodeNoPermute, Pack, UnpackTag, UnpackValue, SetIndex, IsTagged, SplitLayout.Index, ValidTag;
    var value := Decode(rt, ptr);
    EncodeDecode(rt, ptr);
    EncodeKeepsTagBit(rt, value);
    PackUnpack(rt.layout, 0, 0, value);
    var t := NoPermuteEncode(rt, value);
    if rt.layout.Split? {
      PayloadIgnoresTag(value, t);
    }
  }

  /** The obfuscator shows: encodings of one word under two obfuscators differ by exactly the exclusive
      or of the obfuscators, except for the words that the split layout leaves plain. */
  lemma ObfuscatorShows(rt: Runtime, other: Runtime, ptr: Word)
    requires rt.Valid() && other.Valid() && rt.layout == other.layout && rt.permutation == other.permutation
    ensures if rt.layout.Split? && Plain(ptr) then Encode(rt, ptr) == Encode(other, ptr) == ptr
            else Flip(Encode(rt, ptr), Encode(other, ptr)) == Flip(rt.obfuscator, other.obfuscator)
  {
    hide Search, SetIndex, Plain, Obfuscated, Clear, Flip, SplitLayout.Index;
    FlipTwice(ptr, rt.obfuscator);
    FlipTwice(ptr, other.obfuscator);
    if rt.layout.Split? {
      var tag := PermutedTag(rt, ptr);
      SwapTag(ptr, tag, rt.obfuscator);
      SwapTag(ptr, tag, other.obfuscator);
      FlipDifference(SetIndex(ptr, tag), rt.obfuscator, other.obfuscator);
    } else {
      FlipDifference(ptr, rt.obfuscator, other.obfuscator);
    }
  }

  lemma FlipDifference(w: Word, o: Word, p: Word)
    ensures Flip(Flip(w, o), Flip(w, p)) == Flip(o, p)
  {
    hide Flip;
    FlipTwice(w, o);
    FlipTwice(w, p);
    FlipAssociates(o, w, Flip(w, p));
    FlipAssociates(w, w, p);
    FlipCancels(w, p);
  }

  lemma FlipAssociates(x: Word, y: Word, z: Word)
    ensures Flip(Flip(x, y), z) == Flip(x, Flip(y, z))
  {
  }

  lemma FlipCancels(x: Word, y: Word)
    ensures Flip(Flip(x, x), y) == y
  {
  }

  /** One basic and one extended tag in each layout, bit by bit. */
  lemma PackAnswers()
    ensures Pack(Split, 3, 0x123) == 0x8000_0000_0000_091b
    ensures Pack(Msb, 3, 0x123) == 0xb000_0000_0000_0123
    ensures Pack(Lsb, 3, 0x123) == 0x1237
    ensures Pack(Split, 0x48, 0x123) == 0xa000_0000_0000_091f
    ensures Pack(Msb, 0x48, 0x123) == 0xf400_0000_0000_0123
    ensures Pack(Lsb, 0x48, 0x123) == 0x12_340f
  {
    SplitAnswers();
    MsbAnswers();
    LsbAnswers();
  }

  lemma SplitAnswers()
    ensures SplitLayout.Basic(3, 0x123) == 0x8000_0000_0000_091b
            && SplitLayout.Ext(0x48, 0x123) == 0xa000_0000_0000_091f
  {
  }

  lemma MsbAnswers()
    ensures MsbLayout.Basic(3, 0x123) == 0xb000_0000_0000_0123 && MsbLayout.Ext(0x48, 0x123) == 0xf400_0000_0000_0123
  {
  }

  lemma LsbAnswers()
    ensures LsbLayout.Basic(3, 0x123) == 0x1237 && LsbLayout.Ext(0x48, 0x123) == 0x12_340f
  {
  }
}
