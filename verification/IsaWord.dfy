/** The packed `isa` word: carry and borrow of the whole word are overflow and underflow of
    `extra_rc`, so the field-level machine of module RefCount is the word-level code. */
module IsaWord {
  import opened Bits
  import opened RefCount

  /** `rc` bits of extra_rc on top, has_sidetable_rc just below them at bit `side`. */
  datatype Layout = Layout(side: nat, rc: nat)

  const ARM64E := Layout(55, 8)
  const ARM64 := Layout(44, 19)
  const X86_64 := Layout(55, 8)
  const ARMV7K := Layout(24, 7)

  predicate ValidLayout(l: Layout) { l.rc >= 2 }

  function RcHalf(l: Layout): nat
    requires ValidLayout(l)
  {
    Pow2(l.rc - 1)
  }

  /** The position of RC_ONE, and the width of the word. */
  function RcShift(l: Layout): nat { l.side + 1 }

  function Width(l: Layout): nat { l.side + 1 + l.rc }

  predicate Fits(l: Layout, isa: Isa) { isa.extra < Pow2(l.rc) && isa.low < Pow2(l.side) }

  function Below(l: Layout, isa: Isa): nat { isa.low + if isa.side then Pow2(l.side) else 0 }

  function Pack(l: Layout, isa: Isa): nat { Shl(isa.extra, RcShift(l)) + Below(l, isa) }

  function Unpack(l: Layout, bits: nat): Isa {
    Isa(Shr(bits, RcShift(l)), BitSet(bits, l.side), Low(bits, l.side))
  }

  /** `addc` and `subc` on the machine word. */
  function Addc(l: Layout, x: nat, y: nat): (nat, bool) {
    if x + y >= Pow2(Width(l)) then (x + y - Pow2(Width(l)), true) else (x + y, false)
  }

  function Subc(l: Layout, x: nat, y: nat): (nat, bool)
    requires y <= Pow2(Width(l))
  {
    if x < y then (x + Pow2(Width(l)) - y, true) else (x - y, false)
  }

  /** Assignments to the bit fields of a word. */
  function SetExtra(l: Layout, bits: nat, v: nat): nat {
    Shl(v, RcShift(l)) + Low(bits, RcShift(l))
  }

  function SetSide(l: Layout, bits: nat, v: bool): nat {
    Shl(Shr(bits, RcShift(l)), RcShift(l)) + Low(bits, l.side) + if v then Pow2(l.side) else 0
  }

  lemma PackParts(l: Layout, isa: Isa)
    requires Fits(l, isa)
    ensures Shr(Pack(l, isa), RcShift(l)) == isa.extra
    ensures Low(Pack(l, isa), RcShift(l)) == Below(l, isa)
    ensures Low(Pack(l, isa), l.side) == isa.low
    ensures BitSet(Pack(l, isa), l.side) <==> isa.side
  {
    hide Shl, Shr, Low, Pow2;
    Pow2Next(l.side);
    Join(isa.extra, Below(l, isa), RcShift(l));
    var b := if isa.side then 1 else 0;
    var hi := 2 * isa.extra + b;
    ShlOne(l.side);
    ShlShl(isa.extra, 1, l.side);
    ShlTwice(isa.extra);
    ShlAdd(2 * isa.extra, b, l.side);
    assert Pack(l, isa) == Shl(hi, l.side) + isa.low;
    Join(hi, isa.low, l.side);
  }

  lemma ShlTwice(x: nat)
    ensures Shl(x, 1) == 2 * x
  {
    assert Shl(x, 0) == x;
  }

  /** Packing loses nothing, so a compare-and-swap on words is one on field records. */
  lemma UnpackPack(l: Layout, isa: Isa)
    requires Fits(l, isa)
    ensures Unpack(l, Pack(l, isa)) == isa
    ensures Pack(l, isa) < Pow2(Width(l))
  {
    PackParts(l, isa);
    ShlMono(isa.extra, Pow2(l.rc), RcShift(l));
    ShlPow2(l.rc, RcShift(l));
  }

  lemma PackUnpack(l: Layout, bits: nat)
    requires bits < Pow2(Width(l))
    ensures Fits(l, Unpack(l, bits)) && Pack(l, Unpack(l, bits)) == bits
  {
    Split(bits, l.side);
    var hi := Shr(bits, l.side);
    Split(hi, 1);
    assert Low(hi, 1) == hi % 2 by { assert Low(hi / 2, 0) == 0; }
    ShrShr(bits, l.side, 1);
    ShlAdd(Shl(Shr(hi, 1), 1), hi % 2, l.side);
    ShlShl(Shr(hi, 1), 1, l.side);
    ShlOne(l.side);
    ShrBound(bits, l.rc, RcShift(l));
  }

  /** Adding k * RC_ONE adds k to extra_rc, and carries exactly when extra_rc overflows. */
  lemma AddcIsExtraRcPlus(l: Layout, isa: Isa, k: nat)
    requires Fits(l, isa)
    ensures var (bits, carry) := Addc(l, Pack(l, isa), Shl(k, RcShift(l)));
            && (carry <==> isa.extra + k >= Pow2(l.rc))
            && (!carry ==> bits == Pack(l, isa.(extra := isa.extra + k)))
  {
    var sum := isa.extra + k;
    ShlAdd(isa.extra, k, RcShift(l));
    ShlPow2(l.rc, RcShift(l));
    if sum >= Pow2(l.rc) {
      ShlMono(Pow2(l.rc), sum, RcShift(l));
    } else {
      ShlMono(sum, Pow2(l.rc), RcShift(l));
    }
  }

  /** Subtracting RC_ONE takes one from extra_rc, and borrows exactly when extra_rc is zero. */
  lemma SubcIsExtraRcMinus(l: Layout, isa: Isa)
    requires Fits(l, isa)
    ensures Shl(1, RcShift(l)) <= Pow2(Width(l))
    ensures var (bits, borrow) := Subc(l, Pack(l, isa), Shl(1, RcShift(l)));
            && (borrow <==> isa.extra == 0)
            && (!borrow ==> bits == Pack(l, isa.(extra := isa.extra - 1)))
  {
    ShlOne(RcShift(l));
    Pow2Mono(RcShift(l), Width(l));
    if isa.extra > 0 {
      ShlAdd(isa.extra - 1, 1, RcShift(l));
    }
  }

  lemma FieldStores(l: Layout, isa: Isa, v: nat, b: bool)
    requires Fits(l, isa)
    ensures SetExtra(l, Pack(l, isa), v) == Pack(l, isa.(extra := v))
    ensures SetSide(l, Pack(l, isa), b) == Pack(l, isa.(side := b))
  {
    PackParts(l, isa);
  }

  /** The word that rootRetain stores: extra_rc + 1, or half of the range with the side bit. */
  function RetainWord(l: Layout, bits: nat): (nat, bool)
    requires ValidLayout(l)
  {
    var (sum, carry) := Addc(l, bits, Shl(1, RcShift(l)));
    if carry then (SetSide(l, SetExtra(l, sum, RcHalf(l)), true), true) else (sum, false)
  }

  /** The word that the second store of rootRelease's borrow writes. */
  function BorrowRetryWord(l: Layout, bits: nat, borrowed: nat, empty: bool): (nat, bool)
    requires borrowed > 0
  {
    var (sum, overflow) := Addc(l, bits, Shl(borrowed - 1, RcShift(l)));
    (SetSide(l, sum, !empty), overflow)
  }

  /** The words computed by the code are the packed records computed by the machine. */
  lemma RetainWordMatches(l: Layout, isa: Isa)
    requires ValidLayout(l) && Fits(l, isa)
    ensures var (bits, carry) := RetainWord(l, Pack(l, isa));
            && (carry <==> !(isa.extra + 1 < 2 * RcHalf(l)))
            && bits == Pack(l, if carry then Isa(RcHalf(l), true, isa.low) else isa.(extra := isa.extra + 1))
  {
    AddcIsExtraRcPlus(l, isa, 1);
    if isa.extra + 1 >= Pow2(l.rc) {
      var wrapped := isa.(extra := 0);
      ShlAdd(isa.extra, 1, RcShift(l));
      ShlPow2(l.rc, RcShift(l));
      ShlOne(RcShift(l));
      assert Addc(l, Pack(l, isa), Shl(1, RcShift(l))).0 == Pack(l, wrapped);
      FieldStores(l, wrapped, RcHalf(l), true);
      FieldStores(l, wrapped.(extra := RcHalf(l)), 0, true);
    }
  }

  /** The word that rootRelease stores when extra_rc does not underflow unpacks to the machine's
      record, so its test for deallocating is the machine's. */
  lemma ReleaseWordMatches(l: Layout, isa: Isa)
    requires ValidLayout(l) && Fits(l, isa)
    ensures Shl(1, RcShift(l)) <= Pow2(Width(l))
    ensures var (bits, borrow) := Subc(l, Pack(l, isa), Shl(1, RcShift(l)));
            && (borrow <==> isa.extra == 0)
            && (!borrow ==> bits == Pack(l, isa.(extra := isa.extra - 1)))
            && (!borrow ==> Unpack(l, bits) == isa.(extra := isa.extra - 1))
  {
    hide Shl, Pow2, Pack, Unpack;
    SubcIsExtraRcMinus(l, isa);
    if isa.extra > 0 {
      UnpackPack(l, isa.(extra := isa.extra - 1));
    }
  }

  /** The word that the first store after a borrow writes: both fields of the old word replaced. */
  function BorrowWord(l: Layout, bits: nat, borrowed: nat, empty: bool): nat
    requires borrowed > 0
  {
    SetSide(l, SetExtra(l, bits, borrowed - 1), !empty)
  }

  lemma BorrowWordMatches(l: Layout, isa: Isa, borrowed: nat, empty: bool)
    requires ValidLayout(l) && Fits(l, isa) && 0 < borrowed <= Pow2(l.rc)
    ensures BorrowWord(l, Pack(l, isa), borrowed, empty) == Pack(l, Isa(borrowed - 1, !empty, isa.low))
  {
    FieldStores(l, isa, borrowed - 1, !empty);
    FieldStores(l, isa.(extra := borrowed - 1), 0, !empty);
  }

  /** The flag stores: the code's test reads the flag of the machine's record, and a flag that is
      clear is set in the word by setting it in the record, which still fits. */
  lemma FlagWordMatches(l: Layout, isa: Isa, bit: nat)
    requires Fits(l, isa) && bit < l.side
    ensures BitSet(Pack(l, isa), bit) <==> BitSet(isa.low, bit)
    ensures !BitSet(isa.low, bit) ==>
              && Fits(l, isa.(low := isa.low + Pow2(bit)))
              && Pack(l, isa.(low := isa.low + Pow2(bit))) == Pack(l, isa) + Pow2(bit)
              && BitSet(isa.low + Pow2(bit), bit)
  {
    hide BitSet, Shl, Low, Pow2;
    PackParts(l, isa);
    BitOfLow(Pack(l, isa), bit, l.side);
    if !BitSet(isa.low, bit) {
      SetClearBit(isa.low, bit, l.side);
    }
  }

  lemma BorrowRetryWordMatches(l: Layout, isa: Isa, borrowed: nat, empty: bool)
    requires ValidLayout(l) && Fits(l, isa) && borrowed > 0
    ensures var (bits, overflow) := BorrowRetryWord(l, Pack(l, isa), borrowed, empty);
            && (overflow <==> !(isa.extra + (borrowed - 1) < 2 * RcHalf(l)))
            && (!overflow ==> bits == Pack(l, Isa(isa.extra + (borrowed - 1), !empty, isa.low)))
  {
    AddcIsExtraRcPlus(l, isa, borrowed - 1);
    if isa.extra + (borrowed - 1) < 2 * RcHalf(l) {
      FieldStores(l, isa.(extra := isa.extra + (borrowed - 1)), 0, !empty);
    }
  }

  /** Every layout of isa.h is valid, fills a 64- or 32-bit word, and has an RC_HALF that suits
      the machine. */
  lemma LayoutsFillTheWord()
    ensures forall l :: l in {ARM64E, ARM64, X86_64, ARMV7K} ==> ValidLayout(l) && RcHalf(l) >= 2
    ensures Width(ARM64E) == Width(ARM64) == Width(X86_64) == 64 && Width(ARMV7K) == 32
    ensures RcShift(ARM64E) == RcShift(X86_64) == 56 && RcShift(ARM64) == 45 && RcShift(ARMV7K) == 25
    ensures RcHalf(ARM64E) == RcHalf(X86_64) == 0x80 && RcHalf(ARM64) == 0x4_0000 && RcHalf(ARMV7K) == 0x40
  {
    forall l | l in {ARM64E, ARM64, X86_64, ARMV7K}
      ensures ValidLayout(l) && RcHalf(l) >= 2
    {
      Pow2Mono(1, l.rc - 1);
    }
  }
}

/** The words of a whole run: every isa that a run reaches fits its word, so the lemmas of IsaWord
    apply to every store of the run. */
module IsaWordRuns {
  import opened Wrappers
  import opened Bits
  import opened RefCount
  import opened RefCountInvariant
  import opened RefCountRuns
  import opened IsaWord

  /** The flags that are set lie below has_sidetable_rc. */
  ghost predicate FlagsBelow(l: Layout, moves: seq<Move>) {
    forall i :: 0 <= i < |moves| && moves[i].ch.op.SetFlag? ==> moves[i].ch.op.bit < l.side
  }

  ghost predicate PcFits(l: Layout, pc: Pc) {
    match pc
    case RetainBody(_, _, _, seen) => seen.low < Pow2(l.side)
    case ReleaseBody(_, _, seen) => seen.low < Pow2(l.side)
    case ReleaseBorrowed(seen, _, _) => seen.low < Pow2(l.side)
    case ReleaseRetryStore(seen, _, _) => seen.low < Pow2(l.side)
    case FlagLoad(bit) => bit < l.side
    case FlagBody(bit, seen) => bit < l.side && seen.low < Pow2(l.side)
    case _ => true
  }

  lemma StepFits(l: Layout, h: nat, t: Tid, sh: Shared, pc: Pc, ch: Choice)
    requires PcFits(l, pc) && sh.isa.low < Pow2(l.side) && Step(h, t, sh, pc, ch).Some?
    requires ch.op.SetFlag? ==> ch.op.bit < l.side
    ensures PcFits(l, Step(h, t, sh, pc, ch).value.1) && Step(h, t, sh, pc, ch).value.0.isa.low < Pow2(l.side)
  {
    hide Pow2, BitSet;
    if pc.FlagBody? && !BitSet(pc.seen.low, pc.bit) {
      SetClearBit(pc.seen.low, pc.bit, l.side);
    }
  }

  ghost predicate LowFits(l: Layout, s: State) {
    s.sh.isa.low < Pow2(l.side) && forall t :: t in s.pcs ==> PcFits(l, s.pcs[t])
  }

  lemma {:induction false} RunKeepsLow(l: Layout, h: nat, states: seq<State>, moves: seq<Move>, n: nat)
    requires Run(h, states, moves) && n <= |moves| && FlagsBelow(l, moves) && states[0].sh.isa.low < Pow2(l.side)
    ensures LowFits(l, states[n])
  {
    hide Step, Pow2;
    if n > 0 {
      RunKeepsLow(l, h, states, moves, n - 1);
      var s, t, ch := states[n - 1], moves[n - 1].t, moves[n - 1].ch;
      assert Next(h, s, t, ch, states[n]);
      StepFits(l, h, t, s.sh, s.pcs[t], ch);
    }
  }

  /** The isa that a thread has read and goes on to compute with. */
  predicate HasSeen(pc: Pc) {
    pc.RetainBody? || pc.ReleaseBody? || pc.ReleaseBorrowed? || pc.ReleaseRetryStore? || pc.FlagBody?
  }

  lemma SeenFits(l: Layout, h: nat, sh: Shared, pc: Pc)
    requires PcInv(h, sh, pc) && PcFits(l, pc) && HasSeen(pc) && 2 * h == Pow2(l.rc)
    ensures Fits(l, pc.seen)
  {
    hide Pow2;
  }

  /** In every run with the RC_HALF of a layout, after every step, the isa in memory and every isa
      that a thread has read fit that layout's word. */
  lemma RunFits(l: Layout, states: seq<State>, moves: seq<Move>, n: nat)
    requires ValidLayout(l) && Run(RcHalf(l), states, moves) && n <= |moves|
    requires FlagsBelow(l, moves) && states[0].sh.isa.low < Pow2(l.side)
    ensures Fits(l, states[n].sh.isa)
    ensures forall t :: t in states[n].pcs && HasSeen(states[n].pcs[t]) ==> Fits(l, states[n].pcs[t].seen)
  {
    hide PcInv, PcFits;
    Pow2Mono(1, l.rc - 1);
    Pow2Next(l.rc - 1);
    RunKeepsInv(RcHalf(l), states, moves, n);
    RunKeepsLow(l, RcHalf(l), states, moves, n);
    forall t | t in states[n].pcs && HasSeen(states[n].pcs[t]) ensures Fits(l, states[n].pcs[t].seen) {
      SeenFits(l, RcHalf(l), states[n].sh, states[n].pcs[t]);
    }
  }

  /** The word that the code computes from the word it has read, at each of its stores. */
  function WordToStore(l: Layout, pc: Pc): nat
    requires ValidLayout(l) && HasSeen(pc) && (pc.ReleaseBorrowed? || pc.ReleaseRetryStore? ==> pc.borrowed > 0)
    requires Shl(1, RcShift(l)) <= Pow2(Width(l))
  {
    var bits := Pack(l, pc.seen);
    match pc
    case RetainBody(_, _, _, _) => RetainWord(l, bits).0
    case ReleaseBody(_, _, _) => Subc(l, bits, Shl(1, RcShift(l))).0
    case ReleaseBorrowed(_, borrowed, empty) => BorrowWord(l, bits, borrowed, empty)
    case ReleaseRetryStore(_, borrowed, empty) => BorrowRetryWord(l, bits, borrowed, empty).0
    case FlagBody(bit, _) => bits + Pow2(bit)
  }

  /** Every step that changes the isa is a store by compare-and-swap, and what it leaves in memory is
      the packed word that the code computes from the word it has read. */
  lemma StepStoresWord(l: Layout, t: Tid, sh: Shared, pc: Pc, ch: Choice)
    requires ValidLayout(l) && Step(RcHalf(l), t, sh, pc, ch).Some?
    requires PcInv(RcHalf(l), sh, pc) && PcFits(l, pc)
    ensures Shl(1, RcShift(l)) <= Pow2(Width(l))
    ensures var isa' := Step(RcHalf(l), t, sh, pc, ch).value.0.isa;
            isa' != sh.isa ==>
              && HasSeen(pc) && (pc.ReleaseBorrowed? || pc.ReleaseRetryStore? ==> pc.borrowed > 0)
              && sh.isa == pc.seen && !ch.fail
              && Pack(l, isa') == WordToStore(l, pc)
  {
    hide Pow2, Shl, Pack, RetainWord, Subc, BorrowWord, BorrowRetryWord, BitSet;
    ShlOne(RcShift(l));
    Pow2Mono(RcShift(l), Width(l));
    var h := RcHalf(l);
    HalfOfRange(l);
    if HasSeen(pc) {
      SeenFits(l, h, sh, pc);
      match pc
      case RetainBody(_, _, _, seen) => RetainWordMatches(l, seen);
      case ReleaseBody(_, _, seen) => SubcIsExtraRcMinus(l, seen);
      case ReleaseBorrowed(seen, borrowed, empty) =>
        BorrowWordMatches(l, seen, borrowed, empty);
      case ReleaseRetryStore(seen, borrowed, empty) =>
        BorrowRetryWordMatches(l, seen, borrowed, empty);
      case FlagBody(bit, seen) => FlagWordMatches(l, seen, bit);
    }
  }

  lemma HalfOfRange(l: Layout)
    requires ValidLayout(l)
    ensures 2 * RcHalf(l) == Pow2(l.rc) && RcHalf(l) >= 2
  {
    Pow2Mono(1, l.rc - 1);
    Pow2Next(l.rc - 1);
  }

  /** Over whole runs: every change of the isa word in memory is one of the code's stores, of the word
      that the code computes. */
  lemma RunStoresWords(l: Layout, states: seq<State>, moves: seq<Move>, n: nat)
    requires ValidLayout(l) && Run(RcHalf(l), states, moves) && n < |moves|
    requires FlagsBelow(l, moves) && states[0].sh.isa.low < Pow2(l.side)
    ensures Shl(1, RcShift(l)) <= Pow2(Width(l))
    ensures moves[n].t in states[n].pcs
    ensures var pc := states[n].pcs[moves[n].t];
            states[n + 1].sh.isa != states[n].sh.isa ==>
              && HasSeen(pc) && (pc.ReleaseBorrowed? || pc.ReleaseRetryStore? ==> pc.borrowed > 0)
              && states[n].sh.isa == pc.seen
              && Pack(l, states[n + 1].sh.isa) == WordToStore(l, pc)
  {
    hide Step, PcInv, PcFits, Pack, WordToStore;
    HalfOfRange(l);
    RunKeepsInv(RcHalf(l), states, moves, n);
    RunKeepsLow(l, RcHalf(l), states, moves, n);
    assert Next(RcHalf(l), states[n], moves[n].t, moves[n].ch, states[n + 1]);
    StepStoresWord(l, moves[n].t, states[n].sh, states[n].pcs[moves[n].t], moves[n].ch);
  }
}
