/** What holds over whole runs of the reference counting machine, for every interleaving of any
    number of threads. */
module RefCountRuns {
  import opened Wrappers
  import opened RefCount
  import opened RefCountInvariant
  import opened AtomicCounter
  import opened RefCountRefinement

  datatype Move = Move(t: Tid, ch: Choice)

  ghost predicate Run(h: nat, states: seq<State>, moves: seq<Move>) {
    && |states| == |moves| + 1
    && Init(states[0])
    && forall i :: 0 <= i < |moves| ==> Next(h, states[i], moves[i].t, moves[i].ch, states[i + 1])
  }

  ghost function AlphaRun(h: nat, states: seq<State>): seq<Abs> {
    seq(|states|, i requires 0 <= i < |states| => Alpha(h, states[i]))
  }

  function Threads(moves: seq<Move>): seq<Tid> {
    seq(|moves|, i requires 0 <= i < |moves| => moves[i].t)
  }

  lemma {:induction false} RunKeepsInv(h: nat, states: seq<State>, moves: seq<Move>, n: nat)
    requires h >= 2 && Run(h, states, moves) && n <= |moves|
    ensures Inv(h, states[n])
  {
    if n > 0 {
      RunKeepsInv(h, states, moves, n - 1);
      NextKeepsInv(h, states[n - 1], moves[n - 1].t, moves[n - 1].ch, states[n]);
    }
  }

  /** Linearizability: seen through Alpha, every run is a run of the atomic counter. */
  lemma RunRefines(h: nat, states: seq<State>, moves: seq<Move>)
    requires h >= 2 && Run(h, states, moves)
    ensures AbsRun(AlphaRun(h, states), Threads(moves))
  {
    var run, ts := AlphaRun(h, states), Threads(moves);
    forall i | 0 <= i < |ts|
      ensures AbsNext(run[i], ts[i], run[i + 1])
    {
      RunKeepsInv(h, states, moves, i);
      NextRefines(h, states[i], moves[i].t, moves[i].ch, states[i + 1]);
    }
  }

  /** The count is never lost: what is inline, in the side table and in flight is one, plus the
      retains of a live object that took effect, minus the releases that did. */
  lemma RetainsAndReleasesBalance(h: nat, states: seq<State>, moves: seq<Move>, n: nat)
    requires h >= 2 && Run(h, states, moves) && n <= |moves|
    ensures AbsRun(AlphaRun(h, states), Threads(moves))
    ensures var s := states[n];
            s.sh.isa.extra + s.sh.table + Flight(h, s)
            + Effects(AlphaRun(h, states), Threads(moves), {Release}, n)
            == 1 + Effects(AlphaRun(h, states), Threads(moves), {Retain, TryRetain}, n)
  {
    RunRefines(h, states, moves);
    CountIsConserved(AlphaRun(h, states), Threads(moves), n);
  }

  /** The deallocating state is the state of count zero, it is never left, and exactly one
      release answers "deallocate now" on the way into it. */
  lemma DeallocatesOnce(h: nat, states: seq<State>, moves: seq<Move>, m: nat, n: nat)
    requires h >= 2 && Run(h, states, moves) && m <= n <= |moves|
    ensures AbsRun(AlphaRun(h, states), Threads(moves))
    ensures states[m].sh.isa.IsDeallocating() ==> states[n].sh.isa.IsDeallocating()
    ensures states[n].sh.isa.IsDeallocating() <==> AlphaRun(h, states)[n].rc == 0
    ensures Deallocations(AlphaRun(h, states), Threads(moves), n)
            == if states[n].sh.isa.IsDeallocating() then 1 else 0
  {
    RunRefines(h, states, moves);
    RunKeepsInv(h, states, moves, m);
    RunKeepsInv(h, states, moves, n);
    DeallocatingIffZero(h, states[m]);
    DeallocatingIffZero(h, states[n]);
    OneDeallocation(AlphaRun(h, states), Threads(moves), n);
    if states[m].sh.isa.IsDeallocating() {
      ZeroIsForever(AlphaRun(h, states), Threads(moves), m, n);
    }
  }

  /** With the lock free, has_sidetable_rc says exactly whether the side table holds retains,
      and a thread outside every call never owns the lock. */
  lemma SideBitIsAccurate(h: nat, states: seq<State>, moves: seq<Move>, n: nat)
    requires h >= 2 && Run(h, states, moves) && n <= |moves|
    ensures states[n].sh.lock == None ==> (states[n].sh.isa.side <==> states[n].sh.table > 0)
    ensures forall t :: t in states[n].pcs && states[n].pcs[t] == Idle ==> states[n].sh.lock != Some(t)
  {
    RunKeepsInv(h, states, moves, n);
  }

  /** rootRelease never meets an empty side table after it found has_sidetable_rc under the
      lock, and never finds the isa deallocating after a borrow. */
  lemma BorrowAlwaysSucceeds(h: nat, states: seq<State>, moves: seq<Move>, n: nat, t: Tid)
    requires h >= 2 && Run(h, states, moves) && n <= |moves| && t in states[n].pcs
    ensures var pc := states[n].pcs[t];
            pc.ReleaseBody? && pc.full && pc.locked && pc.seen.extra == 0 && pc.seen.side
            ==> SubExtraRC(h, states[n].sh.table).0 == h
    ensures states[n].pcs[t].ReleaseStored? ==> !states[n].pcs[t].dealloc
  {
    RunKeepsInv(h, states, moves, n);
  }

  /** The guard of the branch that drops the caller's lock: rootTryRetain leaves by it exactly when
      it has sideTableLocked set and the isa it read is deallocating. */
  lemma TryDropsLockIff(h: nat, states: seq<State>, moves: seq<Move>, n: nat, t: Tid)
    requires h >= 2 && Run(h, states, moves) && n < |moves| && moves[n].t == t && t in states[n].pcs
    requires states[n].pcs[t].RetainBody? && states[n].pcs[t].tr
    ensures t in states[n + 1].pcs
    ensures var pc := states[n].pcs[t];
            states[n + 1].pcs[t] == Leave(TryRetain, Nil, true) <==> pc.locked && pc.seen.IsDeallocating()
  {
    assert Next(h, states[n], moves[n].t, moves[n].ch, states[n + 1]);
  }

  /** rootTryRetain sets sideTableLocked exactly when, in its full variant, the inline count it read
      is at its maximum and its store fails; a store that succeeds leaves the loop. */
  lemma TrySetsLockedIff(h: nat, states: seq<State>, moves: seq<Move>, n: nat, t: Tid)
    requires h >= 2 && Run(h, states, moves) && n < |moves| && moves[n].t == t && t in states[n].pcs
    requires states[n].pcs[t].RetainBody? && states[n].pcs[t].tr && !states[n].pcs[t].locked
    ensures t in states[n + 1].pcs
    ensures var pc, pc' := states[n].pcs[t], states[n + 1].pcs[t];
            pc'.RetainBody? && pc'.locked
            <==> pc.full && pc.seen.extra + 1 == 2 * h && (states[n].sh.isa != pc.seen || moves[n].ch.fail)
  {
    RunKeepsInv(h, states, moves, n);
    assert Next(h, states[n], moves[n].t, moves[n].ch, states[n + 1]);
    assert PcInv(h, states[n].sh, states[n].pcs[t]);
  }

  /** Step i of a run is a store by a full-variant rootTryRetain of thread t that fails at the full
      inline count, and t has stayed in the loop of that call up to state n. */
  ghost predicate LostAtFull(h: nat, states: seq<State>, moves: seq<Move>, n: nat, t: Tid, i: nat)
    requires |states| == |moves| + 1 && n <= |moves|
  {
    && i < n && moves[i].t == t && t in states[i].pcs
    && InTryLoop(states, n, t, i)
    && states[i].pcs[t].full && states[i].pcs[t].seen.extra + 1 == 2 * h
    && (states[i].sh.isa != states[i].pcs[t].seen || moves[i].ch.fail)
  }

  ghost predicate HasLost(h: nat, states: seq<State>, moves: seq<Move>, n: nat, t: Tid)
    requires |states| == |moves| + 1 && n <= |moves|
  {
    exists i: nat :: LostAtFull(h, states, moves, n, t, i)
  }

  ghost predicate InTryLoop(states: seq<State>, n: nat, t: Tid, i: nat)
    requires n < |states|
  {
    forall k :: i <= k <= n ==> t in states[k].pcs && states[k].pcs[t].RetainBody? && states[k].pcs[t].tr
  }

  lemma {:induction false} LockedIffLost(h: nat, states: seq<State>, moves: seq<Move>, n: nat, t: Tid)
    requires h >= 2 && Run(h, states, moves) && n <= |moves| && t in states[n].pcs
    requires states[n].pcs[t].RetainBody? && states[n].pcs[t].tr
    ensures states[n].pcs[t].locked <==> HasLost(h, states, moves, n, t)
  {
    hide Inv, PcInv;
    if n > 0 {
      var s := states[n - 1];
      assert Next(h, s, moves[n - 1].t, moves[n - 1].ch, states[n]);
      if s.pcs[t].RetainBody? && s.pcs[t].tr {
        LockedIffLost(h, states, moves, n - 1, t);
        LoopGoesOn(h, states, moves, n, t);
        if moves[n - 1].t == t && !s.pcs[t].locked {
          TrySetsLockedIff(h, states, moves, n - 1, t);
        }
      } else {
        forall i: nat ensures !LostAtFull(h, states, moves, n, t, i) {
          assert i < n ==> i <= n - 1 <= n;
        }
      }
    }
  }

  /** A store that was lost stays lost, and the last step may lose another. */
  lemma LoopGoesOn(h: nat, states: seq<State>, moves: seq<Move>, n: nat, t: Tid)
    requires Run(h, states, moves) && 0 < n <= |moves| && t in states[n - 1].pcs && t in states[n].pcs
    requires states[n - 1].pcs[t].RetainBody? && states[n - 1].pcs[t].tr
    requires states[n].pcs[t].RetainBody? && states[n].pcs[t].tr
    ensures HasLost(h, states, moves, n, t)
       <==> HasLost(h, states, moves, n - 1, t)
            || (&& moves[n - 1].t == t && states[n - 1].pcs[t].full && states[n - 1].pcs[t].seen.extra + 1 == 2 * h
                && (states[n - 1].sh.isa != states[n - 1].pcs[t].seen || moves[n - 1].ch.fail))
  {
    var m: nat := n - 1;
    if HasLost(h, states, moves, m, t) {
      var i: nat :| LostAtFull(h, states, moves, m, t, i);
      assert LostAtFull(h, states, moves, n, t, i);
    }
    if HasLost(h, states, moves, n, t) {
      var i: nat :| LostAtFull(h, states, moves, n, t, i);
      assert i < m ==> LostAtFull(h, states, moves, m, t, i);
    }
    assert LostAtFull(h, states, moves, n, t, m)
      <==> (&& moves[m].t == t && states[m].pcs[t].full && states[m].pcs[t].seen.extra + 1 == 2 * h
            && (states[m].sh.isa != states[m].pcs[t].seen || moves[m].ch.fail));
  }

  /** When exactly the caller's lock is dropped: rootTryRetain leaves by that branch if and only if
      the isa it read is deallocating and an earlier store of the same loop failed at the full
      inline count. */
  lemma TryDropsLockIffLost(h: nat, states: seq<State>, moves: seq<Move>, n: nat, t: Tid)
    requires h >= 2 && Run(h, states, moves) && n < |moves| && moves[n].t == t && t in states[n].pcs
    requires states[n].pcs[t].RetainBody? && states[n].pcs[t].tr
    ensures t in states[n + 1].pcs
    ensures states[n + 1].pcs[t] == Leave(TryRetain, Nil, true)
       <==> states[n].pcs[t].seen.IsDeallocating() && HasLost(h, states, moves, n, t)
  {
    hide HasLost;
    TryDropsLockIff(h, states, moves, n, t);
    LockedIffLost(h, states, moves, n, t);
  }

  /** No deadlock: in every state of every run every thread that has not faulted can move, or the
      holder of the lock can. */
  lemma NoDeadlock(h: nat, states: seq<State>, moves: seq<Move>, n: nat, t: Tid, ch: Choice)
    requires h >= 2 && Run(h, states, moves) && n <= |moves| && t in states[n].pcs && states[n].pcs[t] != Faulted
    ensures var s := states[n];
            || Step(h, t, s.sh, s.pcs[t], ch).Some?
            || (s.sh.lock.Some? && s.sh.lock.value in s.pcs
                && Step(h, s.sh.lock.value, s.sh, s.pcs[s.sh.lock.value], ch).Some?)
  {
    hide Step, PcInv, SideInv;
    RunKeepsInv(h, states, moves, n);
    if states[n].sh.lock == None {
      FreeToMove(h, states[n], t, ch);
    } else {
      HolderMoves(h, states[n], states[n].sh.lock.value, ch);
    }
  }

  /** Returning from rootTryRetain gives the caller's lock away exactly in that case. */
  lemma TryReturnUnlocksIff(h: nat, states: seq<State>, moves: seq<Move>, n: nat, t: Tid)
    requires h >= 2 && Run(h, states, moves) && n < |moves| && moves[n].t == t && t in states[n].pcs
    requires states[n].pcs[t].Leave? && states[n].pcs[t].op == TryRetain
    ensures states[n].sh.lock == Some(t)
    ensures states[n + 1].sh.lock == (if states[n].pcs[t] == Leave(TryRetain, Nil, true) then None else Some(t))
  {
    RunKeepsInv(h, states, moves, n);
    assert Next(h, states[n], moves[n].t, moves[n].ch, states[n + 1]);
    assert PcInv(h, states[n].sh, states[n].pcs[t]) && Holds(states[n].pcs[t]);
  }

  /** A nil on its way out, and a fault, are seen only once the object is deallocating. */
  ghost predicate NilIsDead(s: State) {
    forall t :: t in s.pcs && BringsNil(s.pcs[t]) ==> s.sh.isa.IsDeallocating()
  }

  predicate BringsNil(pc: Pc) {
    || (pc.Leave? && pc.result == Nil)
    || (pc.TryExit? && pc.result == Nil)
    || pc == Faulted
  }

  lemma NilStep(h: nat, t: Tid, sh: Shared, pc: Pc, ch: Choice)
    requires h >= 2 && PcInv(h, sh, pc) && (Holds(pc) <==> sh.lock == Some(t)) && Step(h, t, sh, pc, ch).Some?
    requires BringsNil(pc) ==> sh.isa.IsDeallocating()
    ensures BringsNil(Step(h, t, sh, pc, ch).value.1) ==> Step(h, t, sh, pc, ch).value.0.isa.IsDeallocating()
  {
  }

  lemma {:induction false} RunKeepsNilDead(h: nat, states: seq<State>, moves: seq<Move>, n: nat)
    requires h >= 2 && Run(h, states, moves) && n <= |moves|
    ensures NilIsDead(states[n])
  {
    hide Step, PcInv, Holds;
    if n > 0 {
      RunKeepsNilDead(h, states, moves, n - 1);
      RunKeepsInv(h, states, moves, n - 1);
      var s, s', t, ch := states[n - 1], states[n], moves[n - 1].t, moves[n - 1].ch;
      assert Next(h, s, t, ch, s');
      NilStep(h, t, s.sh, s.pcs[t], ch);
      forall u | u in s.pcs && u != t ensures s.sh.isa.IsDeallocating() ==> s'.sh.isa.IsDeallocating() {
        InvIsReady(h, s, t);
        StepGuarantee(h, t, u, s.sh, s.pcs[t], ch, Flight(h, s));
      }
    }
  }

  lemma InvIsReady(h: nat, s: State, t: Tid)
    requires h >= 2 && Inv(h, s) && t in s.pcs
    ensures Ready(h, t, s.sh, s.pcs[t], Flight(h, s))
  {
  }

  /** A caller that keeps the object alive keeps its lock: no fault while the isa is not
      deallocating. */
  lemma NoFaultWhileAlive(h: nat, states: seq<State>, moves: seq<Move>, n: nat, t: Tid)
    requires h >= 2 && Run(h, states, moves) && n <= |moves| && t in states[n].pcs
    requires !states[n].sh.isa.IsDeallocating()
    ensures states[n].pcs[t] != Faulted
  {
    RunKeepsNilDead(h, states, moves, n);
  }

  /** No rootTryRetain has met a full inline count. */
  ghost predicate NeverFull(h: nat, s: State) {
    forall t :: t in s.pcs ==> TryIsCalm(h, s.pcs[t])
  }

  predicate TryIsCalm(h: nat, pc: Pc) {
    match pc
    case RetainBody(tr, _, locked, seen) => tr ==> !locked && seen.extra + 1 < 2 * h
    case Leave(op, _, locked) => op == TryRetain ==> !locked
    case TryExit(_, dropped) => !dropped
    case Faulted => false
    case _ => true
  }

  lemma CalmStep(h: nat, t: Tid, sh: Shared, pc: Pc, ch: Choice)
    requires h >= 2 && PcInv(h, sh, pc) && (Holds(pc) <==> sh.lock == Some(t)) && Step(h, t, sh, pc, ch).Some?
    requires TryIsCalm(h, pc) && sh.isa.extra + 1 < 2 * h
    ensures TryIsCalm(h, Step(h, t, sh, pc, ch).value.1)
  {
  }

  /** A caller that keeps the count below the inline maximum keeps its lock: no fault in a run
      whose inline count never was at its maximum. */
  lemma {:induction false} NoFaultBelowOverflow(h: nat, states: seq<State>, moves: seq<Move>, n: nat)
    requires h >= 2 && Run(h, states, moves) && n <= |moves|
    requires forall i :: 0 <= i < n ==> states[i].sh.isa.extra + 1 < 2 * h
    ensures NeverFull(h, states[n])
    ensures forall t :: t in states[n].pcs ==> states[n].pcs[t] != Faulted
  {
    hide Step, PcInv, Holds;
    if n > 0 {
      NoFaultBelowOverflow(h, states, moves, n - 1);
      RunKeepsInv(h, states, moves, n - 1);
      var s, t, ch := states[n - 1], moves[n - 1].t, moves[n - 1].ch;
      assert Next(h, s, t, ch, states[n]);
      CalmStep(h, t, s.sh, s.pcs[t], ch);
    }
  }

  /** The only unlock of a lock that is not owned is the one made by the caller of rootTryRetain
      when it returned by the branch of TryDropsLockIff. */
  lemma FaultsOnlyAfterDroppedTry(h: nat, states: seq<State>, moves: seq<Move>, n: nat)
    requires h >= 2 && Run(h, states, moves) && n < |moves|
    ensures var t := moves[n].t;
            t in states[n].pcs && t in states[n + 1].pcs
            && (states[n + 1].pcs[t] == Faulted <==> states[n].pcs[t] == TryExit(Nil, true))
  {
    RunKeepsInv(h, states, moves, n);
    assert Next(h, states[n], moves[n].t, moves[n].ch, states[n + 1]);
    var t := moves[n].t;
    assert PcInv(h, states[n].sh, states[n].pcs[t]);
    assert Holds(states[n].pcs[t]) <==> states[n].sh.lock == Some(t);
  }
}

/** The lock that rootTryRetain's caller holds can be dropped behind its back. */
module DroppedTryLock {
  import opened Wrappers
  import opened RefCount
  import opened RefCountRuns

  /** Runs a schedule from `s`; None if a step is blocked. */
  function Exec(h: nat, s: State, moves: seq<Move>): Option<State>
    decreases |moves|
  {
    if moves == [] then Some(s)
    else if moves[0].t !in s.pcs then None
    else
      var r := Step(h, moves[0].t, s.sh, s.pcs[moves[0].t], moves[0].ch);
      if r == None then None
      else Exec(h, State(r.value.0, s.pcs[moves[0].t := r.value.1]), moves[1..])
  }

  lemma {:induction false} ExecConcat(h: nat, s: State, a: seq<Move>, b: seq<Move>)
    requires Exec(h, s, a).Some?
    ensures Exec(h, s, a + b) == Exec(h, Exec(h, s, a).value, b)
    decreases |a|
  {
    if a == [] {
      assert a + b == b;
    } else {
      var r := Step(h, a[0].t, s.sh, s.pcs[a[0].t], a[0].ch);
      ExecConcat(h, State(r.value.0, s.pcs[a[0].t := r.value.1]), a[1..], b);
      assert (a + b)[1..] == a[1..] + b;
    }
  }

  /** A schedule that executes from an initial state is a run. */
  lemma {:induction false} ExecIsPath(h: nat, s: State, moves: seq<Move>) returns (states: seq<State>)
    requires Exec(h, s, moves).Some?
    ensures |states| == |moves| + 1 && states[0] == s && states[|moves|] == Exec(h, s, moves).value
    ensures forall i :: 0 <= i < |moves| ==> Next(h, states[i], moves[i].t, moves[i].ch, states[i + 1])
    decreases |moves|
  {
    if moves == [] {
      states := [s];
    } else {
      var r := Step(h, moves[0].t, s.sh, s.pcs[moves[0].t], moves[0].ch);
      var rest := ExecIsPath(h, State(r.value.0, s.pcs[moves[0].t := r.value.1]), moves[1..]);
      states := [s] + rest;
      forall i | 0 <= i < |moves|
        ensures Next(h, states[i], moves[i].t, moves[i].ch, states[i + 1])
      {
        if i > 0 {
          assert moves[i] == moves[1..][i - 1];
        }
      }
    }
  }

  function Do(t: Tid, op: Op): Move { Move(t, Choice(op, false)) }

  function Repeat(a: seq<Move>, n: nat): seq<Move> {
    if n == 0 then [] else a + Repeat(a, n - 1)
  }

  function OneRetain(): seq<Move> {
    [Do(1, Retain), Do(1, Retain), Do(1, Retain), Do(1, Retain), Do(1, Retain)]
  }

  function OneRelease(): seq<Move> {
    [Do(1, Release), Do(1, Release), Do(1, Release), Do(1, Release)]
  }

  function WithExtra(s: State, n: nat): State { s.(sh := s.sh.(isa := s.sh.isa.(extra := n))) }

  /** Executing one move of a thread whose program counter has been set to `pc`. */
  lemma Exec1(h: nat, base: State, sh: Shared, pc: Pc, m: Move, rest: seq<Move>, sh': Shared, pc': Pc)
    requires m.t in base.pcs && Step(h, m.t, sh, pc, m.ch) == Some((sh', pc'))
    ensures Exec(h, State(sh, base.pcs[m.t := pc]), [m] + rest) == Exec(h, State(sh', base.pcs[m.t := pc']), rest)
  {
    assert ([m] + rest)[1..] == rest;
    assert base.pcs[m.t := pc][m.t := pc'] == base.pcs[m.t := pc'];
  }

  lemma RetainOnce(h: nat, s: State)
    requires h >= 2 && 1 in s.pcs && s.pcs[1] == Idle
    requires 0 < s.sh.isa.extra && s.sh.isa.extra + 1 < 2 * h
    ensures Exec(h, s, OneRetain()) == Some(WithExtra(s, s.sh.isa.extra + 1))
  {
    var m, sh := Do(1, Retain), s.sh;
    var up := WithExtra(s, s.sh.isa.extra + 1).sh;
    var p1, p2 := RetainLoad(false, false), RetainBody(false, false, false, sh.isa);
    var p3, p4 := RetainStored(false, false, false), Leave(Retain, Receiver, false);
    assert s.pcs[1 := Idle] == s.pcs;
    assert OneRetain() == [m] + ([m] + ([m] + ([m] + ([m] + []))));
    Exec1(h, s, sh, Idle, m, [m] + ([m] + ([m] + ([m] + []))), sh, p1);
    Exec1(h, s, sh, p1, m, [m] + ([m] + ([m] + [])), sh, p2);
    Exec1(h, s, sh, p2, m, [m] + ([m] + []), up, p3);
    Exec1(h, s, up, p3, m, [m] + [], up, p4);
    Exec1(h, s, up, p4, m, [], up, Idle);
  }

  lemma ReleaseOnce(h: nat, s: State)
    requires h >= 2 && 1 in s.pcs && s.pcs[1] == Idle
    requires 0 < s.sh.isa.extra
    ensures Exec(h, s, OneRelease()) == Some(WithExtra(s, s.sh.isa.extra - 1))
  {
    var m, sh := Do(1, Release), s.sh;
    var down := WithExtra(s, s.sh.isa.extra - 1).sh;
    var p1, p2 := ReleaseLoad(false), ReleaseBody(false, false, sh.isa);
    var p3 := Leave(Release, Dealloc(down.isa.IsDeallocating()), false);
    assert s.pcs[1 := Idle] == s.pcs;
    assert OneRelease() == [m] + ([m] + ([m] + ([m] + [])));
    Exec1(h, s, sh, Idle, m, [m] + ([m] + ([m] + [])), sh, p1);
    Exec1(h, s, sh, p1, m, [m] + ([m] + []), sh, p2);
    Exec1(h, s, sh, p2, m, [m] + [], down, p3);
    Exec1(h, s, down, p3, m, [], down, Idle);
  }

  lemma {:induction false} RetainMany(h: nat, s: State, n: nat)
    requires h >= 2 && 1 in s.pcs && s.pcs[1] == Idle
    requires 0 < s.sh.isa.extra && s.sh.isa.extra + n < 2 * h
    ensures Exec(h, s, Repeat(OneRetain(), n)) == Some(WithExtra(s, s.sh.isa.extra + n))
    decreases n
  {
    if n > 0 {
      RetainOnce(h, s);
      ExecConcat(h, s, OneRetain(), Repeat(OneRetain(), n - 1));
      RetainMany(h, WithExtra(s, s.sh.isa.extra + 1), n - 1);
    }
  }

  lemma {:induction false} ReleaseMany(h: nat, s: State, n: nat)
    requires h >= 2 && 1 in s.pcs && s.pcs[1] == Idle
    requires n <= s.sh.isa.extra
    ensures Exec(h, s, Repeat(OneRelease(), n)) == Some(WithExtra(s, s.sh.isa.extra - n))
    decreases n
  {
    if n > 0 {
      ReleaseOnce(h, s);
      ExecConcat(h, s, OneRelease(), Repeat(OneRelease(), n - 1));
      ReleaseMany(h, WithExtra(s, s.sh.isa.extra - 1), n - 1);
    }
  }

  /** Thread 0 enters rootTryRetain, overflows and loses its first CAS to a spurious failure. */
  function TryUntilFull(): seq<Move> {
    [Do(0, TryRetain), Do(0, TryRetain), Do(0, TryRetain), Do(0, TryRetain), Do(0, TryRetain),
     Move(0, Choice(TryRetain, true))]
  }

  lemma TryPrefix(h: nat, s: State)
    requires h >= 2 && 0 in s.pcs && s.pcs[0] == Idle && s.sh.lock == None && s.sh.isa.extra == 2 * h - 1
    ensures Exec(h, s, TryUntilFull())
            == Some(State(s.sh.(lock := Some(0)), s.pcs[0 := RetainBody(true, true, true, s.sh.isa)]))
  {
    var m, f := Do(0, TryRetain), Move(0, Choice(TryRetain, true));
    var sh, held := s.sh, s.sh.(lock := Some(0));
    assert s.pcs[0 := Idle] == s.pcs;
    assert TryUntilFull() == [m] + ([m] + ([m] + ([m] + ([m] + ([f] + [])))));
    Exec1(h, s, sh, Idle, m, [m] + ([m] + ([m] + ([m] + ([f] + [])))), sh, TryEnter);
    Exec1(h, s, sh, TryEnter, m, [m] + ([m] + ([m] + ([f] + []))), held, RetainLoad(true, false));
    var p3, p5 := RetainBody(true, false, false, sh.isa), RetainBody(true, true, false, sh.isa);
    Exec1(h, s, held, RetainLoad(true, false), m, [m] + ([m] + ([f] + [])), held, p3);
    Exec1(h, s, held, p3, m, [m] + ([f] + []), held, RetainLoad(true, true));
    Exec1(h, s, held, RetainLoad(true, true), m, [f] + [], held, p5);
    Exec1(h, s, held, p5, f, [], held, RetainBody(true, true, true, sh.isa));
  }

  /** Thread 0 finds the object deallocating, unlocks, returns nil; its caller unlocks again. */
  function TryAfterDeath(): seq<Move> {
    [Do(0, TryRetain), Do(0, TryRetain), Do(0, TryRetain), Do(0, TryRetain)]
  }

  lemma TrySuffix(h: nat, s: State, seen: Isa)
    requires h >= 2 && 0 in s.pcs && s.pcs[0] == RetainBody(true, true, true, seen)
    requires seen.extra == 2 * h - 1 && s.sh.lock == Some(0) && s.sh.isa.IsDeallocating()
    ensures Exec(h, s, TryAfterDeath()) == Some(State(s.sh.(lock := None), s.pcs[0 := Faulted]))
  {
    var m, sh, free := Do(0, TryRetain), s.sh, s.sh.(lock := None);
    var p0, p1 := RetainBody(true, true, true, seen), RetainBody(true, true, true, sh.isa);
    assert s.pcs[0 := p0] == s.pcs;
    assert TryAfterDeath() == [m] + ([m] + ([m] + ([m] + [])));
    Exec1(h, s, sh, p0, m, [m] + ([m] + ([m] + [])), sh, p1);
    Exec1(h, s, sh, p1, m, [m] + ([m] + []), sh, Leave(TryRetain, Nil, true));
    Exec1(h, s, sh, Leave(TryRetain, Nil, true), m, [m] + [], free, TryExit(Nil, true));
    Exec1(h, s, free, TryExit(Nil, true), m, [], free, Faulted);
  }

  lemma Then(h: nat, s: State, a: seq<Move>, s1: State, b: seq<Move>, s2: State)
    requires Exec(h, s, a) == Some(s1) && Exec(h, s1, b) == Some(s2)
    ensures Exec(h, s, a + b) == Some(s2)
  {
    ExecConcat(h, s, a, b);
  }

  function Fresh(low: nat): State {
    State(Shared(Isa(1, false, low), 0, None), map[0 := Idle, 1 := Idle])
  }

  /** Thread 0 inside rootTryRetain, with sideTableLocked set and the inline count full. */
  function Stuck(h: nat, low: nat): State
    requires h >= 2
  {
    var isa := Isa(2 * h - 1, false, low);
    State(Shared(isa, 0, Some(0)), map[0 := RetainBody(true, true, true, isa), 1 := Idle])
  }

  lemma ReachStuck(h: nat, low: nat)
    requires h >= 2
    ensures Exec(h, Fresh(low), Repeat(OneRetain(), 2 * h - 2) + TryUntilFull()) == Some(Stuck(h, low))
  {
    hide Exec, Repeat, OneRetain, TryUntilFull;
    var s := Fresh(low);
    RetainMany(h, s, 2 * h - 2);
    var full := WithExtra(s, 2 * h - 1);
    TryPrefix(h, full);
    assert full.pcs[0 := Stuck(h, low).pcs[0]] == Stuck(h, low).pcs;
    Then(h, s, Repeat(OneRetain(), 2 * h - 2), full, TryUntilFull(), Stuck(h, low));
  }

  lemma StuckFaults(h: nat, low: nat) returns (end: State)
    requires h >= 2
    ensures Exec(h, Stuck(h, low), Repeat(OneRelease(), 2 * h - 1) + TryAfterDeath()) == Some(end)
    ensures 0 in end.pcs && end.pcs[0] == Faulted
  {
    var s := Stuck(h, low);
    ReleaseMany(h, s, 2 * h - 1);
    var dead := WithExtra(s, 0);
    TrySuffix(h, dead, s.sh.isa);
    end := State(dead.sh.(lock := None), dead.pcs[0 := Faulted]);
    Then(h, s, Repeat(OneRelease(), 2 * h - 1), dead, TryAfterDeath(), end);
  }

  /** For every width of extra_rc there is a run in which the caller of rootTryRetain finds that
      the side table lock it took is no longer its own. */
  lemma CallerLockCanBeDropped(h: nat, low: nat) returns (states: seq<State>, moves: seq<Move>)
    requires h >= 2
    ensures Run(h, states, moves)
    ensures 0 in states[|moves|].pcs && states[|moves|].pcs[0] == Faulted
  {
    ReachStuck(h, low);
    var end := StuckFaults(h, low);
    var a, b := Repeat(OneRetain(), 2 * h - 2) + TryUntilFull(), Repeat(OneRelease(), 2 * h - 1) + TryAfterDeath();
    Then(h, Fresh(low), a, Stuck(h, low), b, end);
    moves := a + b;
    states := ExecIsPath(h, Fresh(low), moves);
  }
}
