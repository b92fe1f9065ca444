/** Bit patterns shared by the three tagged pointer layouts. */
module Words {
  type Word = bv64

  /** >> by 4 and by 12 on a signed word: the sign bit fills the bits that become free. */
  function Shift4Signed(x: Word): Word {
    if x & 0x8000_0000_0000_0000 == 0 then x >> 4 else (x >> 4) | 0xf000_0000_0000_0000
  }

  function Shift12Signed(x: Word): Word {
    if x & 0x8000_0000_0000_0000 == 0 then x >> 12 else (x >> 12) | 0xfff0_0000_0000_0000
  }

  /** The low 60 or 52 bits, zero-extended and sign-extended. */
  function Low60(v: Word): Word { v & 0x0fff_ffff_ffff_ffff }

  function Low52(v: Word): Word { v & 0x000f_ffff_ffff_ffff }

  /** Copy bit 59, or bit 51, of a 60-bit or 52-bit number upwards. */
  function Extend60(y: Word): Word { if y & 0x0800_0000_0000_0000 == 0 then y else y | 0xf000_0000_0000_0000 }

  function Extend52(y: Word): Word { if y & 0x0008_0000_0000_0000 == 0 then y else y | 0xfff0_0000_0000_0000 }

  lemma ShiftExtends4(x: Word)
    ensures Shift4Signed(x) == Extend60(x >> 4)
  {
    assert (x >> 4) & 0x0800_0000_0000_0000 == 0 <==> x & 0x8000_0000_0000_0000 == 0;
  }

  lemma ShiftExtends12(x: Word)
    ensures Shift12Signed(x) == Extend52(x >> 12)
  {
    assert (x >> 12) & 0x0008_0000_0000_0000 == 0 <==> x & 0x8000_0000_0000_0000 == 0;
  }
}

/** arm64: basic tag in the low bits, extended tag in the high bits. */
module SplitLayout {
  import opened Words

  function Basic(tag: Word, v: Word): Word { 0x8000_0000_0000_0000 | tag | ((v << 4) >> 1) }

  function Ext(tag: Word, v: Word): Word { 0x8000_0000_0000_0007 | ((tag - 8) << 55) | ((v << 12) >> 9) }

  function Index(w: Word): Word { w & 7 }

  function ExtTag(w: Word): Word { ((w >> 55) & 0xff) + 8 }

  function Payload(w: Word): Word { (w << 1) >> 4 }

  function SignedPayload(w: Word): Word { Shift4Signed(w << 1) }

  function ExtPayload(w: Word): Word { (w << 9) >> 12 }

  function ExtSignedPayload(w: Word): Word { Shift12Signed(w << 9) }

  predicate IsTagged(w: Word) { w & 0x8000_0000_0000_0000 == 0x8000_0000_0000_0000 }

  /** The three fields of a word with a basic tag. */
  lemma BasicFields(tag: Word, v: Word)
    requires tag <= 6
    ensures Index(Basic(tag, v)) == tag && IsTagged(Basic(tag, v))
    ensures Payload(Basic(tag, v)) == Low60(v)
  {
  }

  lemma BasicSigned(tag: Word, v: Word)
    requires tag <= 6
    ensures SignedPayload(Basic(tag, v)) == Extend60(Low60(v))
  {
    hide Basic, Payload, SignedPayload, Extend60, Low60;
    BasicFields(tag, v);
    SignedExtends(Basic(tag, v));
  }

  lemma SignedExtends(w: Word)
    ensures SignedPayload(w) == Extend60(Payload(w))
  {
    hide Shift4Signed, Extend60;
    ShiftExtends4(w << 1);
  }

  /** The three fields of a word with an extended tag. */
  lemma ExtFields(tag: Word, v: Word)
    requires 8 <= tag <= 263
    ensures Index(Ext(tag, v)) == 7 && IsTagged(Ext(tag, v))
    ensures ExtTag(Ext(tag, v)) == tag
    ensures ExtPayload(Ext(tag, v)) == Low52(v)
  {
    ExtBits(tag - 8, v);
  }

  lemma ExtBits(index: Word, v: Word)
    requires index < 256
    ensures (0x8000_0000_0000_0007 | (index << 55) | ((v << 12) >> 9)) & 7 == 7
    ensures ((0x8000_0000_0000_0007 | (index << 55) | ((v << 12) >> 9)) >> 55) & 0xff == index
    ensures ((0x8000_0000_0000_0007 | (index << 55) | ((v << 12) >> 9)) << 9) >> 12 == v & 0x000f_ffff_ffff_ffff
  {
  }

  lemma ExtSigned(tag: Word, v: Word)
    requires 8 <= tag <= 263
    ensures ExtSignedPayload(Ext(tag, v)) == Extend52(Low52(v))
  {
    hide Ext, ExtPayload, ExtSignedPayload, Extend52, Low52;
    ExtFields(tag, v);
    ExtSignedExtends(Ext(tag, v));
  }

  lemma ExtSignedExtends(w: Word)
    ensures ExtSignedPayload(w) == Extend52(ExtPayload(w))
  {
    hide Shift12Signed, Extend52;
    ShiftExtends12(w << 9);
  }

  lemma BasicWordBits(w: Word)
    requires w & 0x8000_0000_0000_0000 == 0x8000_0000_0000_0000
    ensures 0x8000_0000_0000_0000 | (w & 7) | ((((w << 1) >> 4) << 4) >> 1) == w
  {
  }

  lemma ExtWordBits(w: Word)
    requires w & 0x8000_0000_0000_0000 == 0x8000_0000_0000_0000
    ensures w & 7 == 7 ==> 0x8000_0000_0000_0007 | (((w >> 55) & 0xff) << 55) | ((((w << 9) >> 12) << 12) >> 9) == w
  {
  }

  /** Every tagged word is made of its own fields. */
  lemma FieldsMakeBasic(w: Word)
    requires IsTagged(w) && Index(w) != 7
    ensures Basic(Index(w), Payload(w)) == w
  {
    BasicWordBits(w);
  }

  lemma FieldsMakeExt(w: Word)
    requires IsTagged(w) && Index(w) == 7
    ensures Ext(ExtTag(w), ExtPayload(w)) == w
  {
    ExtWordBits(w);
  }

  lemma IndexRange(w: Word)
    ensures Index(w) == 7 || Index(w) <= 6
    ensures 8 <= ExtTag(w) <= 263
  {
  }

  /** All that the codec uses of this layout: what the fields of a packed word are, and that a
      tagged word is made of its fields. */
  lemma FieldLaws(tag: Word, v: Word, w: Word)
    ensures tag <= 6 ==>
              && IsTagged(Basic(tag, v)) && Index(Basic(tag, v)) == tag
              && Payload(Basic(tag, v)) == Low60(v) && SignedPayload(Basic(tag, v)) == Extend60(Low60(v))
    ensures 8 <= tag <= 263 ==>
              && IsTagged(Ext(tag, v)) && Index(Ext(tag, v)) == 7 && ExtTag(Ext(tag, v)) == tag
              && ExtPayload(Ext(tag, v)) == Low52(v) && ExtSignedPayload(Ext(tag, v)) == Extend52(Low52(v))
    ensures IsTagged(w) && Index(w) != 7 ==> Index(w) <= 6 && Basic(Index(w), Payload(w)) == w
    ensures IsTagged(w) && Index(w) == 7 ==> 8 <= ExtTag(w) <= 263 && Ext(ExtTag(w), ExtPayload(w)) == w
  {
    hide Basic, Ext, Index, ExtTag, Payload, SignedPayload, ExtPayload, ExtSignedPayload, IsTagged, Low60, Low52,
      Extend60, Extend52;
    if tag <= 6 {
      BasicFields(tag, v);
      BasicSigned(tag, v);
    } else if 8 <= tag <= 263 {
      ExtFields(tag, v);
      ExtSigned(tag, v);
    }
    IndexRange(w);
    if IsTagged(w) {
      if Index(w) != 7 { FieldsMakeBasic(w); } else { FieldsMakeExt(w); }
    }
  }
}

/** Other 64-bit targets: tag bit, index and extended index at the top. */
module MsbLayout {
  import opened Words

  function Basic(tag: Word, v: Word): Word { 0x8000_0000_0000_0000 | (tag << 60) | ((v << 4) >> 4) }

  function Ext(tag: Word, v: Word): Word { 0xf000_0000_0000_0000 | ((tag - 8) << 52) | ((v << 12) >> 12) }

  function Index(w: Word): Word { (w >> 60) & 7 }

  function ExtTag(w: Word): Word { ((w >> 52) & 0xff) + 8 }

  function Payload(w: Word): Word { (w << 4) >> 4 }

  function SignedPayload(w: Word): Word { Shift4Signed(w << 4) }

  function ExtPayload(w: Word): Word { (w << 12) >> 12 }

  function ExtSignedPayload(w: Word): Word { Shift12Signed(w << 12) }

  predicate IsTagged(w: Word) { w & 0x8000_0000_0000_0000 == 0x8000_0000_0000_0000 }

  /** The three fields of a word with a basic tag. */
  lemma BasicFields(tag: Word, v: Word)
    requires tag <= 6
    ensures Index(Basic(tag, v)) == tag && IsTagged(Basic(tag, v))
    ensures Payload(Basic(tag, v)) == Low60(v)
  {
  }

  lemma BasicSigned(tag: Word, v: Word)
    requires tag <= 6
    ensures SignedPayload(Basic(tag, v)) == Extend60(Low60(v))
  {
    hide Basic, Payload, SignedPayload, Extend60, Low60;
    BasicFields(tag, v);
    SignedExtends(Basic(tag, v));
  }

  lemma SignedExtends(w: Word)
    ensures SignedPayload(w) == Extend60(Payload(w))
  {
    hide Shift4Signed, Extend60;
    ShiftExtends4(w << 4);
  }

  /** The three fields of a word with an extended tag. */
  lemma ExtFields(tag: Word, v: Word)
    requires 8 <= tag <= 263
    ensures Index(Ext(tag, v)) == 7 && IsTagged(Ext(tag, v))
    ensures ExtTag(Ext(tag, v)) == tag
    ensures ExtPayload(Ext(tag, v)) == Low52(v)
  {
    ExtBits(tag - 8, v);
  }

  lemma ExtBits(index: Word, v: Word)
    requires index < 256
    ensures ((0xf000_0000_0000_0000 | (index << 52) | ((v << 12) >> 12)) >> 60) & 7 == 7
    ensures ((0xf000_0000_0000_0000 | (index << 52) | ((v << 12) >> 12)) >> 52) & 0xff == index
    ensures ((0xf000_0000_0000_0000 | (index << 52) | ((v << 12) >> 12)) << 12) >> 12 == v & 0x000f_ffff_ffff_ffff
  {
  }

  lemma ExtSigned(tag: Word, v: Word)
    requires 8 <= tag <= 263
    ensures ExtSignedPayload(Ext(tag, v)) == Extend52(Low52(v))
  {
    hide Ext, ExtPayload, ExtSignedPayload, Extend52, Low52;
    ExtFields(tag, v);
    ExtSignedExtends(Ext(tag, v));
  }

  lemma ExtSignedExtends(w: Word)
    ensures ExtSignedPayload(w) == Extend52(ExtPayload(w))
  {
    hide Shift12Signed, Extend52;
    ShiftExtends12(w << 12);
  }

  lemma BasicWordBits(w: Word)
    requires w & 0x8000_0000_0000_0000 == 0x8000_0000_0000_0000
    ensures 0x8000_0000_0000_0000 | (((w >> 60) & 7) << 60) | ((((w << 4) >> 4) << 4) >> 4) == w
  {
  }

  lemma ExtWordBits(w: Word)
    requires w & 0x8000_0000_0000_0000 == 0x8000_0000_0000_0000
    ensures (w >> 60) & 7 == 7 ==>
              0xf000_0000_0000_0000 | (((w >> 52) & 0xff) << 52) | ((((w << 12) >> 12) << 12) >> 12) == w
  {
  }

  /** Every tagged word is made of its own fields. */
  lemma FieldsMakeBasic(w: Word)
    requires IsTagged(w) && Index(w) != 7
    ensures Basic(Index(w), Payload(w)) == w
  {
    BasicWordBits(w);
  }

  lemma FieldsMakeExt(w: Word)
    requires IsTagged(w) && Index(w) == 7
    ensures Ext(ExtTag(w), ExtPayload(w)) == w
  {
    ExtWordBits(w);
  }

  lemma IndexRange(w: Word)
    ensures Index(w) == 7 || Index(w) <= 6
    ensures 8 <= ExtTag(w) <= 263
  {
  }

  /** All that the codec uses of this layout: what the fields of a packed word are, and that a
      tagged word is made of its fields. */
  lemma FieldLaws(tag: Word, v: Word, w: Word)
    ensures tag <= 6 ==>
              && IsTagged(Basic(tag, v)) && Index(Basic(tag, v)) == tag
              && Payload(Basic(tag, v)) == Low60(v) && SignedPayload(Basic(tag, v)) == Extend60(Low60(v))
    ensures 8 <= tag <= 263 ==>
              && IsTagged(Ext(tag, v)) && Index(Ext(tag, v)) == 7 && ExtTag(Ext(tag, v)) == tag
              && ExtPayload(Ext(tag, v)) == Low52(v) && ExtSignedPayload(Ext(tag, v)) == Extend52(Low52(v))
    ensures IsTagged(w) && Index(w) != 7 ==> Index(w) <= 6 && Basic(Index(w), Payload(w)) == w
    ensures IsTagged(w) && Index(w) == 7 ==> 8 <= ExtTag(w) <= 263 && Ext(ExtTag(w), ExtPayload(w)) == w
  {
    hide Basic, Ext, Index, ExtTag, Payload, SignedPayload, ExtPayload, ExtSignedPayload, IsTagged, Low60, Low52,
      Extend60, Extend52;
    if tag <= 6 {
      BasicFields(tag, v);
      BasicSigned(tag, v);
    } else if 8 <= tag <= 263 {
      ExtFields(tag, v);
      ExtSigned(tag, v);
    }
    IndexRange(w);
    if IsTagged(w) {
      if Index(w) != 7 { FieldsMakeBasic(w); } else { FieldsMakeExt(w); }
    }
  }
}

/** Intel Macs: tag bit, index and extended index at the bottom. */
module LsbLayout {
  import opened Words

  function Basic(tag: Word, v: Word): Word { 1 | (tag << 1) | (v << 4) }

  function Ext(tag: Word, v: Word): Word { 0xf | ((tag - 8) << 4) | (v << 12) }

  function Index(w: Word): Word { (w >> 1) & 7 }

  function ExtTag(w: Word): Word { ((w >> 4) & 0xff) + 8 }

  function Payload(w: Word): Word { w >> 4 }

  function SignedPayload(w: Word): Word { Shift4Signed(w) }

  function ExtPayload(w: Word): Word { w >> 12 }

  function ExtSignedPayload(w: Word): Word { Shift12Signed(w) }

  predicate IsTagged(w: Word) { w & 1 == 1 }

  /** The three fields of a word with a basic tag. */
  lemma BasicFields(tag: Word, v: Word)
    requires tag <= 6
    ensures Index(Basic(tag, v)) == tag && IsTagged(Basic(tag, v))
    ensures Payload(Basic(tag, v)) == Low60(v)
  {
  }

  lemma BasicSigned(tag: Word, v: Word)
    requires tag <= 6
    ensures SignedPayload(Basic(tag, v)) == Extend60(Low60(v))
  {
    hide Basic, Payload, SignedPayload, Extend60, Low60;
    BasicFields(tag, v);
    SignedExtends(Basic(tag, v));
  }

  lemma SignedExtends(w: Word)
    ensures SignedPayload(w) == Extend60(Payload(w))
  {
    hide Shift4Signed, Extend60;
    ShiftExtends4(w);
  }

  /** The three fields of a word with an extended tag. */
  lemma ExtFields(tag: Word, v: Word)
    requires 8 <= tag <= 263
    ensures Index(Ext(tag, v)) == 7 && IsTagged(Ext(tag, v))
    ensures ExtTag(Ext(tag, v)) == tag
    ensures ExtPayload(Ext(tag, v)) == Low52(v)
  {
    ExtBits(tag - 8, v);
  }

  lemma ExtBits(index: Word, v: Word)
    requires index < 256
    ensures ((0xf | (index << 4) | (v << 12)) >> 1) & 7 == 7
    ensures ((0xf | (index << 4) | (v << 12)) >> 4) & 0xff == index
    ensures (0xf | (index << 4) | (v << 12)) >> 12 == v & 0x000f_ffff_ffff_ffff
  {
  }

  lemma ExtSigned(tag: Word, v: Word)
    requires 8 <= tag <= 263
    ensures ExtSignedPayload(Ext(tag, v)) == Extend52(Low52(v))
  {
    hide Ext, ExtPayload, ExtSignedPayload, Extend52, Low52;
    ExtFields(tag, v);
    ExtSignedExtends(Ext(tag, v));
  }

  lemma ExtSignedExtends(w: Word)
    ensures ExtSignedPayload(w) == Extend52(ExtPayload(w))
  {
    hide Shift12Signed, Extend52;
    ShiftExtends12(w);
  }

  lemma BasicWordBits(w: Word)
    requires w & 1 == 1
    ensures 1 | (((w >> 1) & 7) << 1) | ((w >> 4) << 4) == w
  {
  }

  lemma ExtWordBits(w: Word)
    requires w & 1 == 1
    ensures (w >> 1) & 7 == 7 ==> 0xf | (((w >> 4) & 0xff) << 4) | ((w >> 12) << 12) == w
  {
  }

  /** Every tagged word is made of its own fields. */
  lemma FieldsMakeBasic(w: Word)
    requires IsTagged(w) && Index(w) != 7
    ensures Basic(Index(w), Payload(w)) == w
  {
    BasicWordBits(w);
  }

  lemma FieldsMakeExt(w: Word)
    requires IsTagged(w) && Index(w) == 7
    ensures Ext(ExtTag(w), ExtPayload(w)) == w
  {
    ExtWordBits(w);
  }

  lemma IndexRange(w: Word)
    ensures Index(w) == 7 || Index(w) <= 6
    ensures 8 <= ExtTag(w) <= 263
  {
  }

  /** All that the codec uses of this layout: what the fields of a packed word are, and that a
      tagged word is made of its fields. */
  lemma FieldLaws(tag: Word, v: Word, w: Word)
    ensures tag <= 6 ==>
              && IsTagged(Basic(tag, v)) && Index(Basic(tag, v)) == tag
              && Payload(Basic(tag, v)) == Low60(v) && SignedPayload(Basic(tag, v)) == Extend60(Low60(v))
    ensures 8 <= tag <= 263 ==>
              && IsTagged(Ext(tag, v)) && Index(Ext(tag, v)) == 7 && ExtTag(Ext(tag, v)) == tag
              && ExtPayload(Ext(tag, v)) == Low52(v) && ExtSignedPayload(Ext(tag, v)) == Extend52(Low52(v))
    ensures IsTagged(w) && Index(w) != 7 ==> Index(w) <= 6 && Basic(Index(w), Payload(w)) == w
    ensures IsTagged(w) && Index(w) == 7 ==> 8 <= ExtTag(w) <= 263 && Ext(ExtTag(w), ExtPayload(w)) == w
  {
    hide Basic, Ext, Index, ExtTag, Payload, SignedPayload, ExtPayload, ExtSignedPayload, IsTagged, Low60, Low52,
      Extend60, Extend52;
    if tag <= 6 {
      BasicFields(tag, v);
      BasicSigned(tag, v);
    } else if 8 <= tag <= 263 {
      ExtFields(tag, v);
      ExtSigned(tag, v);
    }
    IndexRange(w);
    if IsTagged(w) {
      if Index(w) != 7 { FieldsMakeBasic(w); } else { FieldsMakeExt(w); }
    }
  }
}
