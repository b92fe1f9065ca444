/** The inductive invariant of the reference counting machine, by rely and guarantee. */
module RefCountInvariant {
  import opened Wrappers
  import opened RefCount

  /** Does a thread at this point own the side table lock? */
  predicate Holds(pc: Pc) {
    match pc
    case RetainLoad(tr, _) => tr
    case RetainBody(tr, _, locked, _) => tr || locked
    case RetainStored(tr, locked, _) => tr || locked
    case ReleaseBody(_, locked, _) => locked
    case ReleaseReload => true
    case ReleaseBorrowed(_, _, _) => true
    case ReleaseRetryStore(_, _, _) => true
    case ReleasePutBack(_) => true
    case ReleaseStored(_, _) => true
    case CountLoad => true
    case CountRead(_) => true
    case Leave(op, _, locked) => locked || op == TryRetain
    case TryExit(_, dropped) => !dropped
    case _ => false
  }

  /** Retains that a thread has taken out of one store and not yet put into the other. */
  function InFlight(h: nat, pc: Pc): nat {
    match pc
    case RetainStored(_, _, transcribe) => if transcribe then h else 0
    case ReleaseBorrowed(_, borrowed, _) => borrowed
    case ReleaseRetryStore(_, borrowed, _) => borrowed
    case ReleasePutBack(borrowed) => borrowed
    case _ => 0
  }

  ghost predicate SeenInv(h: nat, isa: Isa, seen: Isa) {
    && seen.extra < 2 * h
    && (seen.IsDeallocating() ==> isa.IsDeallocating())
  }

  /** What a thread may assume about the shared memory at each point of its code. */
  ghost predicate PcInv(h: nat, sh: Shared, pc: Pc) {
    match pc
    case RetainBody(_, full, locked, seen) => SeenInv(h, sh.isa, seen) && (locked ==> full)
    case RetainStored(_, locked, transcribe) => transcribe ==> locked && sh.isa.side
    case ReleaseBody(full, locked, seen) =>
      SeenInv(h, sh.isa, seen) && (locked ==> full && seen.side == sh.isa.side)
    case ReleaseBorrowed(seen, borrowed, empty) =>
      seen.extra == 0 && borrowed == h && sh.isa.side && (empty <==> sh.table == 0) && SeenInv(h, sh.isa, seen)
    case ReleaseRetryStore(seen, borrowed, empty) =>
      borrowed == h && sh.isa.side && (empty <==> sh.table == 0) && SeenInv(h, sh.isa, seen)
    case ReleasePutBack(borrowed) => borrowed == h && sh.isa.side
    case ReleaseStored(empty, dealloc) => !dealloc && (empty <==> sh.table == 0)
    case FlagBody(_, seen) => SeenInv(h, sh.isa, seen)
    case Leave(op, result, locked) =>
      && (op == TryRetain && locked ==> result == Nil)
      && (op == RetainCount ==> locked)
    case TryExit(result, dropped) => dropped ==> result == Nil
    case _ => true
  }

  /** The side table only ever moves by RC_HALF. */
  predicate IsMultiple(h: nat, x: nat)
    requires h > 0
  {
    x == 0 || (x >= h && IsMultiple(h, x - h))
  }

  /** The shared memory seen from the lock: `flight` is what the lock holder has in flight. */
  ghost predicate SideInv(h: nat, sh: Shared, flight: nat)
    requires h > 0
  {
    && sh.isa.extra < 2 * h
    && IsMultiple(h, sh.table)
    && (if flight > 0 then sh.isa.side else sh.isa.side <==> sh.table > 0)
  }

  function Flight(h: nat, s: State): nat {
    if s.sh.lock.Some? && s.sh.lock.value in s.pcs then InFlight(h, s.pcs[s.sh.lock.value]) else 0
  }

  ghost predicate LockInv(s: State) {
    && (s.sh.lock.Some? ==> s.sh.lock.value in s.pcs)
    && forall t :: t in s.pcs ==> (Holds(s.pcs[t]) <==> s.sh.lock == Some(t))
  }

  ghost predicate Inv(h: nat, s: State)
    requires h >= 2
  {
    && LockInv(s)
    && SideInv(h, s.sh, Flight(h, s))
    && forall t :: t in s.pcs ==> PcInv(h, s.sh, s.pcs[t])
  }

  /** What every step of another thread leaves alone for a thread that holds (`mine`) or does
      not hold the lock. */
  ghost predicate Rely(u: Tid, sh: Shared, sh': Shared) {
    && (sh.isa.IsDeallocating() ==> sh'.isa.IsDeallocating())
    && (sh.lock == Some(u) <==> sh'.lock == Some(u))
    && (sh.lock == Some(u) ==> sh'.isa.side == sh.isa.side && sh'.table == sh.table)
  }

  /** The situation of thread `t` before it moves. */
  ghost predicate Ready(h: nat, t: Tid, sh: Shared, pc: Pc, flight: nat)
    requires h > 0
  {
    && PcInv(h, sh, pc)
    && (Holds(pc) <==> sh.lock == Some(t))
    && SideInv(h, sh, flight)
    && (Holds(pc) ==> flight == InFlight(h, pc))
    && (sh.lock == None ==> flight == 0)
  }

  /** What one step owes to its own thread: it keeps the thread's assumptions, its claim on the
      lock, and the side table discipline. */
  ghost predicate Kept(h: nat, t: Tid, sh: Shared, flight: nat, after: (Shared, Pc))
    requires h > 0
  {
    var (sh', pc') := after;
    && PcInv(h, sh', pc')
    && (Holds(pc') <==> sh'.lock == Some(t))
    && (if sh'.lock == Some(t) then SideInv(h, sh', InFlight(h, pc'))
        else InFlight(h, pc') == 0 && SideInv(h, sh', if sh.lock == Some(t) then 0 else flight))
  }

  lemma RetainStepKeeps(h: nat, t: Tid, sh: Shared, pc: Pc, fail: bool, flight: nat)
    requires h >= 2 && pc.RetainBody? && Ready(h, t, sh, pc, flight)
    requires RetainStep(h, t, sh, pc, fail).Some?
    ensures Kept(h, t, sh, flight, RetainStep(h, t, sh, pc, fail).value)
  {
  }

  lemma ReleaseStepKeeps(h: nat, t: Tid, sh: Shared, pc: Pc, fail: bool, flight: nat)
    requires h >= 2 && pc.ReleaseBody? && Ready(h, t, sh, pc, flight)
    requires ReleaseStep(h, t, sh, pc, fail).Some?
    ensures Kept(h, t, sh, flight, ReleaseStep(h, t, sh, pc, fail).value)
  {
  }

  lemma BorrowStepKeeps(h: nat, t: Tid, sh: Shared, pc: Pc, fail: bool, flight: nat)
    requires h >= 2 && HasBorrowed(pc) && Ready(h, t, sh, pc, flight)
    requires BorrowStep(h, sh, pc, fail).Some?
    ensures Kept(h, t, sh, flight, BorrowStep(h, sh, pc, fail).value)
  {
  }

  lemma LeaveStepKeeps(h: nat, t: Tid, sh: Shared, pc: Pc, flight: nat)
    requires h >= 2 && Leaving(pc) && Ready(h, t, sh, pc, flight)
    ensures Kept(h, t, sh, flight, LeaveStep(t, sh, pc))
  {
  }

  lemma PlainStepKeeps(h: nat, t: Tid, sh: Shared, pc: Pc, ch: Choice, flight: nat)
    requires h >= 2 && Ready(h, t, sh, pc, flight)
    requires PlainStep(h, t, sh, pc, ch).Some?
    ensures Kept(h, t, sh, flight, PlainStep(h, t, sh, pc, ch).value)
  {
  }

  lemma StepKeeps(h: nat, t: Tid, sh: Shared, pc: Pc, ch: Choice, flight: nat)
    requires h >= 2 && Ready(h, t, sh, pc, flight)
    requires Step(h, t, sh, pc, ch).Some?
    ensures Kept(h, t, sh, flight, Step(h, t, sh, pc, ch).value)
  {
    if pc.RetainBody? { RetainStepKeeps(h, t, sh, pc, ch.fail, flight); }
    else if pc.ReleaseBody? { ReleaseStepKeeps(h, t, sh, pc, ch.fail, flight); }
    else if HasBorrowed(pc) { BorrowStepKeeps(h, t, sh, pc, ch.fail, flight); }
    else if Leaving(pc) { LeaveStepKeeps(h, t, sh, pc, flight); }
    else { PlainStepKeeps(h, t, sh, pc, ch, flight); }
  }

  /** What one step does to every other thread. */
  lemma StepGuarantee(h: nat, t: Tid, u: Tid, sh: Shared, pc: Pc, ch: Choice, flight: nat)
    requires h >= 2 && t != u
    requires Ready(h, t, sh, pc, flight)
    requires Step(h, t, sh, pc, ch).Some?
    ensures Rely(u, sh, Step(h, t, sh, pc, ch).value.0)
  {
  }

  /** A thread's assumptions survive the steps of the others. */
  lemma PcInvStable(h: nat, u: Tid, sh: Shared, sh': Shared, pc: Pc)
    requires PcInv(h, sh, pc) && Rely(u, sh, sh')
    requires Holds(pc) <==> sh.lock == Some(u)
    ensures PcInv(h, sh', pc)
    ensures Holds(pc) <==> sh'.lock == Some(u)
  {
  }

  lemma NextKeepsInv(h: nat, s: State, t: Tid, ch: Choice, s': State)
    requires h >= 2 && Inv(h, s) && Next(h, s, t, ch, s')
    ensures Inv(h, s')
  {
    hide PcInv, IsMultiple;
    var f := Flight(h, s);
    StepKeeps(h, t, s.sh, s.pcs[t], ch, f);
    forall u | u in s.pcs && u != t
      ensures PcInv(h, s'.sh, s'.pcs[u]) && (Holds(s'.pcs[u]) <==> s'.sh.lock == Some(u))
    {
      StepGuarantee(h, t, u, s.sh, s.pcs[t], ch, f);
      PcInvStable(h, u, s.sh, s'.sh, s.pcs[u]);
    }
  }

  /** The holder of the lock is never blocked. */
  lemma HolderMoves(h: nat, s: State, t: Tid, ch: Choice)
    requires h >= 2 && Inv(h, s) && t in s.pcs && s.sh.lock == Some(t)
    ensures Step(h, t, s.sh, s.pcs[t], ch).Some?
  {
    assert Holds(s.pcs[t]) && PcInv(h, s.sh, s.pcs[t]);
  }

  /** A thread is blocked only by the lock. */
  lemma FreeToMove(h: nat, s: State, t: Tid, ch: Choice)
    requires h >= 2 && Inv(h, s) && t in s.pcs && s.sh.lock == None && s.pcs[t] != Faulted
    ensures Step(h, t, s.sh, s.pcs[t], ch).Some?
  {
    assert PcInv(h, s.sh, s.pcs[t]) && !Holds(s.pcs[t]);
  }
}
