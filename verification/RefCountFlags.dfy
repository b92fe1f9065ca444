/** What the reference counting machine does to the rest of the isa word: the class and the flags. */
module RefCountFlags {
  import opened Wrappers
  import opened Bits
  import opened RefCount
  import opened RefCountInvariant
  import opened RefCountRuns

  /** The step is a store that sets a clear flag. */
  predicate SetsFlag(sh: Shared, pc: Pc, ch: Choice, bit: nat) {
    pc.FlagBody? && pc.bit == bit && sh.isa == pc.seen && !ch.fail && !BitSet(pc.seen.low, bit)
  }

  /** A step changes the class and the flags only by setting a clear flag, and then nothing else. */
  lemma StepKeepsLow(h: nat, t: Tid, sh: Shared, pc: Pc, ch: Choice)
    requires Step(h, t, sh, pc, ch).Some?
    ensures var isa' := Step(h, t, sh, pc, ch).value.0.isa;
            if pc.FlagBody? && SetsFlag(sh, pc, ch, pc.bit) then isa' == sh.isa.(low := sh.isa.low + Pow2(pc.bit))
            else isa'.low == sh.isa.low
  {
    hide Pow2, BitSet;
  }

  ghost predicate SetsAt(states: seq<State>, moves: seq<Move>, i: nat, bit: nat)
    requires |states| == |moves| + 1
  {
    i < |moves| && moves[i].t in states[i].pcs && SetsFlag(states[i].sh, states[i].pcs[moves[i].t], moves[i].ch, bit)
  }

  ghost predicate SetBefore(states: seq<State>, moves: seq<Move>, n: nat, bit: nat)
    requires |states| == |moves| + 1
  {
    exists i: nat :: i < n && SetsAt(states, moves, i, bit)
  }

  /** Over whole runs, bit by bit: below extra_rc and has_sidetable_rc a bit is set iff it was set at
      the start or a flag store has set it. No retain, release or borrow touches the class or a flag. */
  lemma {:induction false} RunKeepsLow(h: nat, states: seq<State>, moves: seq<Move>, n: nat, bit: nat)
    requires Run(h, states, moves) && n <= |moves|
    ensures BitSet(states[n].sh.isa.low, bit) <==> BitSet(states[0].sh.isa.low, bit) || SetBefore(states, moves, n, bit)
  {
    hide Step, BitSet, Pow2;
    if n > 0 {
      var m: nat := n - 1;
      RunKeepsLow(h, states, moves, m, bit);
      var s, t, ch := states[m], moves[m].t, moves[m].ch;
      assert Next(h, s, t, ch, states[n]);
      StepKeepsLow(h, t, s.sh, s.pcs[t], ch);
      SetBeforeNext(states, moves, m, bit);
      if s.pcs[t].FlagBody? && SetsFlag(s.sh, s.pcs[t], ch, s.pcs[t].bit) {
        AddClearBit(s.sh.isa.low, s.pcs[t].bit, bit);
      }
    }
  }

  lemma SetBeforeNext(states: seq<State>, moves: seq<Move>, m: nat, bit: nat)
    requires |states| == |moves| + 1
    ensures SetBefore(states, moves, m + 1, bit) <==> SetBefore(states, moves, m, bit) || SetsAt(states, moves, m, bit)
  {
    hide SetsAt;
    if SetBefore(states, moves, m, bit) {
      var i: nat :| i < m && SetsAt(states, moves, i, bit);
      assert i < m + 1;
    }
    if SetsAt(states, moves, m, bit) {
      assert m < m + 1;
    }
  }

  /** A flag that a thread has seen set, or has answered for, is set. */
  ghost predicate FlagSeen(low: nat, pc: Pc) {
    && (pc.FlagBody? ==> forall b: nat :: BitSet(pc.seen.low, b) ==> BitSet(low, b))
    && (pc.Leave? && pc.op.SetFlag? ==> BitSet(low, pc.op.bit))
  }

  lemma FlagStep(h: nat, t: Tid, sh: Shared, pc: Pc, ch: Choice)
    requires Step(h, t, sh, pc, ch).Some? && FlagSeen(sh.isa.low, pc)
    ensures FlagSeen(Step(h, t, sh, pc, ch).value.0.isa.low, Step(h, t, sh, pc, ch).value.1)
    ensures forall b: nat :: BitSet(sh.isa.low, b) ==> BitSet(Step(h, t, sh, pc, ch).value.0.isa.low, b)
  {
    hide BitSet, Pow2;
    StepKeepsLow(h, t, sh, pc, ch);
    if pc.FlagBody? && SetsFlag(sh, pc, ch, pc.bit) {
      forall b: nat ensures BitSet(sh.isa.low + Pow2(pc.bit), b) <==> BitSet(sh.isa.low, b) || b == pc.bit {
        AddClearBit(sh.isa.low, pc.bit, b);
      }
    }
  }

  lemma {:induction false} RunKeepsFlagSeen(h: nat, states: seq<State>, moves: seq<Move>, n: nat, t: Tid)
    requires Run(h, states, moves) && n <= |moves| && t in states[n].pcs
    ensures FlagSeen(states[n].sh.isa.low, states[n].pcs[t])
  {
    hide Step, BitSet;
    if n > 0 {
      var s, u, ch := states[n - 1], moves[n - 1].t, moves[n - 1].ch;
      assert Next(h, s, u, ch, states[n]);
      RunKeepsFlagSeen(h, states, moves, n - 1, t);
      RunKeepsFlagSeen(h, states, moves, n - 1, u);
      FlagStep(h, u, s.sh, s.pcs[u], ch);
    }
  }

  /** A call that is about to return from setting a flag finds the flag set, and it stays set. */
  lemma AnsweredFlagIsSet(h: nat, states: seq<State>, moves: seq<Move>, n: nat, t: Tid, m: nat)
    requires Run(h, states, moves) && n <= m <= |moves| && t in states[n].pcs
    requires states[n].pcs[t].Leave? && states[n].pcs[t].op.SetFlag?
    ensures BitSet(states[m].sh.isa.low, states[n].pcs[t].op.bit)
  {
    hide BitSet;
    var bit := states[n].pcs[t].op.bit;
    RunKeepsFlagSeen(h, states, moves, n, t);
    RunKeepsLow(h, states, moves, n, bit);
    RunKeepsLow(h, states, moves, m, bit);
    if SetBefore(states, moves, n, bit) {
      var i: nat :| i < n && SetsAt(states, moves, i, bit);
      assert i < m;
    }
  }
}
