/** Progress of the reference counting machine: a call that runs alone returns. */
module RefCountProgress {
  import opened Wrappers
  import opened RefCount
  import opened RefCountInvariant
  import opened RefCountRuns
  import opened AtomicCounter
  import opened RefCountRefinement

  /** How many steps a retain still takes when nobody interferes. `current` says that what it has read
      is still in memory. */
  function RetainRank(h: nat, pc: Pc, current: bool): nat
    requires pc.RetainBody?
  {
    if pc.seen.IsDeallocating() then 3
    else if pc.full then
      if pc.tr || pc.locked then (if current then 5 else 6)
      else if !current then 7 else if pc.seen.extra + 1 < 2 * h then 5 else 6
    else if !current then 9 else if pc.seen.extra + 1 < 2 * h then 5 else 8
  }

  function ReleaseRank(pc: Pc, current: bool): nat
    requires pc.ReleaseBody?
  {
    if pc.seen.IsDeallocating() then 2
    else if pc.locked then (if pc.seen.extra > 0 then (if current then 2 else 5) else if current then 4 else 9)
    else if pc.full then (if !current then 7 else if pc.seen.extra > 0 then 2 else 6)
    else if !current then 9 else if pc.seen.extra > 0 then 2 else 8
  }

  /** How many steps at most a call still takes when nobody interferes. */
  function Rank(h: nat, sh: Shared, pc: Pc): nat {
    match pc
    case Idle => 0
    case Faulted => 0
    case TryEnter => 10
    case RetainLoad(_, full) => if full then 7 else 9
    case RetainBody(_, _, _, seen) => RetainRank(h, pc, seen == sh.isa)
    case RetainStored(_, _, transcribe) => if transcribe then 4 else 3
    case ReleaseLoad(full) => if full then 7 else 9
    case ReleaseBody(_, _, seen) => ReleaseRank(pc, seen == sh.isa)
    case ReleaseReload => 5
    case ReleaseBorrowed(seen, _, _) => if seen == sh.isa then 3 else 8
    case ReleaseRetryStore(seen, borrowed, _) =>
      if seen == sh.isa && seen.extra + borrowed < 2 * h + 1 then 3 else 7
    case ReleasePutBack(_) => 6
    case ReleaseStored(_, _) => 2
    case CountEnter => 4
    case CountLoad => 3
    case CountRead(_) => 2
    case FlagLoad(_) => 3
    case FlagBody(_, seen) => if seen == sh.isa then 2 else 3
    case Leave(op, _, _) => if op == TryRetain then 2 else 1
    case TryExit(_, _) => 1
  }

  /** A step that no other thread disturbs, and whose store does not fail by itself, brings the call
      nearer to its end. */
  lemma SoloStep(h: nat, t: Tid, sh: Shared, pc: Pc, ch: Choice, flight: nat)
    requires h >= 2 && Ready(h, t, sh, pc, flight) && pc != Idle && pc != Faulted && !ch.fail
    requires Step(h, t, sh, pc, ch).Some?
    ensures var (sh', pc') := Step(h, t, sh, pc, ch).value;
            Rank(h, sh', pc') < Rank(h, sh, pc)
  {
    if pc.RetainBody? { SoloRetain(h, t, sh, pc, ch, flight); }
    else if pc.ReleaseBody? { SoloRelease(h, t, sh, pc, ch, flight); }
    else if HasBorrowed(pc) { SoloBorrow(h, t, sh, pc, ch, flight); }
  }

  lemma SoloRetain(h: nat, t: Tid, sh: Shared, pc: Pc, ch: Choice, flight: nat)
    requires h >= 2 && Ready(h, t, sh, pc, flight) && pc.RetainBody? && !ch.fail
    requires RetainStep(h, t, sh, pc, ch.fail).Some?
    ensures var (sh', pc') := RetainStep(h, t, sh, pc, ch.fail).value;
            Rank(h, sh', pc') < Rank(h, sh, pc)
  {
  }

  lemma SoloRelease(h: nat, t: Tid, sh: Shared, pc: Pc, ch: Choice, flight: nat)
    requires h >= 2 && Ready(h, t, sh, pc, flight) && pc.ReleaseBody? && !ch.fail
    requires ReleaseStep(h, t, sh, pc, ch.fail).Some?
    ensures var (sh', pc') := ReleaseStep(h, t, sh, pc, ch.fail).value;
            Rank(h, sh', pc') < Rank(h, sh, pc)
  {
  }

  lemma SoloBorrow(h: nat, t: Tid, sh: Shared, pc: Pc, ch: Choice, flight: nat)
    requires h >= 2 && Ready(h, t, sh, pc, flight) && HasBorrowed(pc) && !ch.fail
    requires BorrowStep(h, sh, pc, ch.fail).Some?
    ensures var (sh', pc') := BorrowStep(h, sh, pc, ch.fail).value;
            Rank(h, sh', pc') < Rank(h, sh, pc)
  {
  }

  /** Thread t runs alone for at most k steps, until its call has returned. */
  function Alone(h: nat, s: State, t: Tid, k: nat): State
    decreases k
  {
    if k == 0 || t !in s.pcs || s.pcs[t] == Idle || s.pcs[t] == Faulted then s
    else
      var r := Step(h, t, s.sh, s.pcs[t], Choice(Retain, false));
      if r == None then s else Alone(h, State(r.value.0, s.pcs[t := r.value.1]), t, k - 1)
  }

  /** Every call returns within ten steps of its own, from any state of any run, if the others pause
      outside the lock and no store fails by itself. */
  lemma {:induction false} AloneReturns(h: nat, s: State, t: Tid, k: nat)
    requires h >= 2 && Inv(h, s) && t in s.pcs && (s.sh.lock == None || s.sh.lock == Some(t))
    requires Rank(h, s.sh, s.pcs[t]) <= k
    ensures t in Alone(h, s, t, k).pcs
    ensures Alone(h, s, t, k).pcs[t] == Idle || Alone(h, s, t, k).pcs[t] == Faulted
    ensures Inv(h, Alone(h, s, t, k))
    decreases k
  {
    hide Step, PcInv, SideInv;
    var pc, ch := s.pcs[t], Choice(Retain, false);
    if pc != Idle && pc != Faulted {
      if s.sh.lock == None { FreeToMove(h, s, t, ch); } else { HolderMoves(h, s, t, ch); }
      var r := Step(h, t, s.sh, pc, ch).value;
      var s' := State(r.0, s.pcs[t := r.1]);
      InvIsReady(h, s, t);
      SoloStep(h, t, s.sh, pc, ch, Flight(h, s));
      RankIsPositive(h, s.sh, pc);
      NextKeepsInv(h, s, t, ch, s');
      OwnLock(h, t, s.sh, pc, ch);
      AloneReturns(h, s', t, k - 1);
    }
  }

  lemma RankIsPositive(h: nat, sh: Shared, pc: Pc)
    requires pc != Idle && pc != Faulted
    ensures 0 < Rank(h, sh, pc) <= 10
  {
  }

  /** A thread takes the lock for itself only. */
  lemma OwnLock(h: nat, t: Tid, sh: Shared, pc: Pc, ch: Choice)
    requires Step(h, t, sh, pc, ch).Some? && (sh.lock == None || sh.lock == Some(t))
    ensures var sh' := Step(h, t, sh, pc, ch).value.0;
            sh'.lock == None || sh'.lock == Some(t)
  {
  }

  lemma RunAloneReturns(h: nat, states: seq<State>, moves: seq<Move>, n: nat, t: Tid)
    requires h >= 2 && Run(h, states, moves) && n <= |moves| && t in states[n].pcs
    requires states[n].sh.lock == None || states[n].sh.lock == Some(t)
    ensures t in Alone(h, states[n], t, 10).pcs
    ensures Alone(h, states[n], t, 10).pcs[t] == Idle || Alone(h, states[n], t, 10).pcs[t] == Faulted
  {
    hide Rank;
    RunKeepsInv(h, states, moves, n);
    RankIsAtMostTen(h, states[n].sh, states[n].pcs[t]);
    AloneReturns(h, states[n], t, 10);
  }

  lemma RankIsAtMostTen(h: nat, sh: Shared, pc: Pc)
    ensures Rank(h, sh, pc) <= 10
  {
    if pc != Idle && pc != Faulted { RankIsPositive(h, sh, pc); }
  }

  // ---------------------------------------------------------------- which call a thread is in

  function CallOf(pc: Pc): Option<Op> {
    match pc
    case Idle => None
    case Faulted => None
    case TryEnter => Some(TryRetain)
    case TryExit(_, _) => Some(TryRetain)
    case Leave(op, _, _) => Some(op)
    case RetainLoad(tr, _) => Some(RetainOp(tr))
    case RetainBody(tr, _, _, _) => Some(RetainOp(tr))
    case RetainStored(tr, _, _) => Some(RetainOp(tr))
    case CountEnter => Some(RetainCount)
    case CountLoad => Some(RetainCount)
    case CountRead(_) => Some(RetainCount)
    case FlagLoad(bit) => Some(SetFlag(bit))
    case FlagBody(bit, _) => Some(SetFlag(bit))
    case _ => Some(Release)
  }

  /** A step begins the chosen call, goes on with the one under way, or ends it. */
  lemma StepStaysInCall(h: nat, t: Tid, sh: Shared, pc: Pc, ch: Choice)
    requires Step(h, t, sh, pc, ch).Some?
    ensures var pc' := Step(h, t, sh, pc, ch).value.1;
            if pc == Idle then CallOf(pc') == Some(ch.op)
            else pc' == Idle || pc' == Faulted || CallOf(pc') == CallOf(pc)
  {
  }

  /** Thread t is in a call in the states from `i` to `n`. */
  ghost predicate InCall(states: seq<State>, t: Tid, i: nat, n: nat) {
    n < |states| && forall k :: i <= k <= n ==> t in states[k].pcs && CallOf(states[k].pcs[t]) != None
  }

  /** The operation that takes effect and answers is the one that was called. */
  lemma {:induction false} RunStaysInCall(h: nat, states: seq<State>, moves: seq<Move>, i: nat, n: nat, t: Tid)
    requires Run(h, states, moves) && i < n <= |moves| && moves[i].t == t
    requires t in states[i].pcs && states[i].pcs[t] == Idle && InCall(states, t, i + 1, n)
    ensures CallOf(states[n].pcs[t]) == Some(moves[i].ch.op)
    ensures var call := AlphaPc(states[n].sh.table, states[n].pcs[t]);
            call != Outside ==> call.op == moves[i].ch.op
    decreases n
  {
    hide Step, CallOf;
    assert Next(h, states[n - 1], moves[n - 1].t, moves[n - 1].ch, states[n]);
    if n > i + 1 {
      RunStaysInCall(h, states, moves, i, n - 1, t);
    }
    if moves[n - 1].t == t {
      StepStaysInCall(h, t, states[n - 1].sh, states[n - 1].pcs[t], moves[n - 1].ch);
      NoCall(states[n - 1].pcs[t]);
      NoCall(states[n].pcs[t]);
    }
    AlphaNamesCall(states[n].sh.table, states[n].pcs[t]);
  }

  lemma NoCall(pc: Pc)
    ensures CallOf(pc) == None <==> pc == Idle || pc == Faulted
  {
  }

  lemma AlphaNamesCall(table: nat, pc: Pc)
    ensures AlphaPc(table, pc) != Outside ==> CallOf(pc) == Some(AlphaPc(table, pc).op)
  {
  }
}
