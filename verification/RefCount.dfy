/** Reference counting with overflow to a side table, as a concurrent state machine.

    One object is shared by any number of threads.  Its retain count is split between the
    `extra_rc` field of the `isa` word, which is changed only by compare-and-swap, and a side
    table that is changed only under the side table lock.  Every atomic action of
    `rootRetain`, `rootRelease`, `rootRetainCount`, `setHasAssociatedObjects` and
    `setWeaklyReferenced_nolock` is one step; the thread-local code between two atomic actions
    belongs to the step that follows it. */
module RefCount {
  import opened Wrappers
  import opened Bits

  type Tid = nat

  /** The fields of a nonpointer `isa`.  `low` holds everything below `has_sidetable_rc`. */
  datatype Isa = Isa(extra: nat, side: bool, low: nat) {
    predicate IsDeallocating() { extra == 0 && !side }
  }

  /** The shared memory: the isa word, the side table's count for this object, the lock. */
  datatype Shared = Shared(isa: Isa, table: nat, lock: Option<Tid>)

  datatype Op = Retain | TryRetain | Release | RetainCount | SetFlag(bit: nat)

  /** What a call returns: the receiver, nil, "deallocate now?", a count, or nothing. */
  datatype Result = Receiver | Nil | Dealloc(now: bool) | Count(n: nat) | Void

  /** Program counters together with the locals that are live there. `tr` is `tryRetain`,
      `full` is `variant == Full`, `locked` is `sideTableLocked`, `seen` is `oldisa`. */
  datatype Pc =
    | Idle
    // The caller of rootTryRetain is about to take the side table lock.
    | TryEnter
    | RetainLoad(tr: bool, full: bool)
    | RetainBody(tr: bool, full: bool, locked: bool, seen: Isa)
    | RetainStored(tr: bool, locked: bool, transcribe: bool)
    | ReleaseLoad(full: bool)
    | ReleaseBody(full: bool, locked: bool, seen: Isa)
    | ReleaseReload
    | ReleaseBorrowed(seen: Isa, borrowed: nat, empty: bool)
    | ReleaseRetryStore(seen: Isa, borrowed: nat, empty: bool)
    | ReleasePutBack(borrowed: nat)
    | ReleaseStored(empty: bool, dealloc: bool)
    | CountEnter
    | CountLoad
    | CountRead(extra: nat)
    | FlagLoad(bit: nat)
    | FlagBody(bit: nat, seen: Isa)
    // About to drop the lock if `locked` says so, and to return `result`.
    | Leave(op: Op, result: Result, locked: bool)
    // rootTryRetain has returned; its caller is about to drop the lock it took in TryEnter.
    | TryExit(result: Result, dropped: bool)
    // Unlocked a lock it did not own.
    | Faulted

  /** The scheduler's choices: which call an idle thread makes, whether a CAS fails spuriously. */
  datatype Choice = Choice(op: Op, fail: bool)

  datatype State = State(sh: Shared, pcs: map<Tid, Pc>)


  function RetainOp(tr: bool): Op { if tr then TryRetain else Retain }

  function Start(op: Op): Pc {
    match op
    case Retain => RetainLoad(false, false)
    case TryRetain => TryEnter
    case Release => ReleaseLoad(false)
    case RetainCount => CountEnter
    case SetFlag(bit) => FlagLoad(bit)
  }

  /** Compare-and-swap on the isa word: moves to `won` when it stores, else to `lost`. */
  function Cas(sh: Shared, seen: Isa, newIsa: Isa, fail: bool, won: Pc, lost: Pc): (Shared, Pc) {
    if sh.isa == seen && !fail then (sh.(isa := newIsa), won) else (sh, lost)
  }

  /** Taking the lock blocks while anyone holds it. */
  function Acquire(sh: Shared, t: Tid, next: Pc): Option<(Shared, Pc)> {
    if sh.lock == None then Some((sh.(lock := Some(t)), next)) else None
  }

  function Unlock(sh: Shared, t: Tid, next: Pc): (Shared, Pc) {
    if sh.lock == Some(t) then (sh.(lock := None), next) else (sh, Faulted)
  }

  /** `sidetable_subExtraRC_nolock(h)`: what it borrows and what it leaves. */
  function SubExtraRC(h: nat, table: nat): (nat, nat) {
    if table >= h then (h, table - h) else (0, table)
  }

  function RetainStep(h: nat, t: Tid, sh: Shared, pc: Pc, fail: bool): Option<(Shared, Pc)>
    requires pc.RetainBody?
  {
    var RetainBody(tr, full, locked, seen) := pc;
    if seen.IsDeallocating() then
      Some((sh, Leave(RetainOp(tr), if tr then Nil else Receiver, locked)))
    else if seen.extra + 1 < 2 * h then
      Some(Cas(sh, seen, seen.(extra := seen.extra + 1), fail,
               RetainStored(tr, locked, false), RetainBody(tr, full, locked, sh.isa)))
    else if !full then
      Some((sh, RetainLoad(tr, true)))
    else if !tr && !locked then
      Acquire(sh, t, RetainBody(tr, full, true, seen))
    else
      Some(Cas(sh, seen, Isa(h, true, seen.low), fail,
               RetainStored(tr, true, true), RetainBody(tr, full, true, sh.isa)))
  }

  function ReleaseStep(h: nat, t: Tid, sh: Shared, pc: Pc, fail: bool): Option<(Shared, Pc)>
    requires pc.ReleaseBody?
  {
    var ReleaseBody(full, locked, seen) := pc;
    if seen.IsDeallocating() then
      Some((sh, Leave(Release, Dealloc(false), locked)))
    else if seen.extra > 0 then
      var newIsa := seen.(extra := seen.extra - 1);
      Some(Cas(sh, seen, newIsa, fail,
               Leave(Release, Dealloc(newIsa.IsDeallocating()), locked), ReleaseBody(full, locked, sh.isa)))
    else if !full then
      Some((sh, ReleaseLoad(true)))
    else if !locked then
      Acquire(sh, t, ReleaseReload)
    else
      var (borrowed, remaining) := SubExtraRC(h, sh.table);
      if borrowed > 0 then
        Some((sh.(table := remaining), ReleaseBorrowed(seen, borrowed, remaining == 0)))
      else
        // "Side table is empty after all": falls through to the dealloc path.
        Some((sh, Leave(Release, Dealloc(true), locked)))
  }

  predicate HasBorrowed(pc: Pc) {
    pc.ReleaseBorrowed? || pc.ReleaseRetryStore? || pc.ReleasePutBack? || pc.ReleaseStored?
  }

  /** The rest of rootRelease once it has borrowed from the side table. */
  function BorrowStep(h: nat, sh: Shared, pc: Pc, fail: bool): Option<(Shared, Pc)>
    requires HasBorrowed(pc)
  {
    match pc
    case ReleaseBorrowed(seen, borrowed, empty) =>
      if borrowed == 0 then None else
        Some(Cas(sh, seen, Isa(borrowed - 1, !empty, seen.low), fail,
                 ReleaseStored(empty, false), ReleaseRetryStore(sh.isa, borrowed, empty)))
    case ReleaseRetryStore(seen, borrowed, empty) =>
      if borrowed == 0 then None else
        var sum := seen.extra + (borrowed - 1);
        if sum < 2 * h then
          var newIsa := Isa(sum, !empty, seen.low);
          Some(Cas(sh, seen, newIsa, fail,
                   ReleaseStored(empty, newIsa.IsDeallocating()), ReleasePutBack(borrowed)))
        else
          Some((sh, ReleasePutBack(borrowed)))
    case ReleasePutBack(borrowed) =>
      Some((sh.(table := sh.table + borrowed), ReleaseReload))
    case ReleaseStored(empty, dealloc) =>
      Some((sh.(table := if empty then 0 else sh.table), Leave(Release, Dealloc(dealloc), true)))
  }

  predicate Leaving(pc: Pc) { pc.Leave? || pc.TryExit? }

  function LeaveStep(t: Tid, sh: Shared, pc: Pc): (Shared, Pc)
    requires Leaving(pc)
  {
    match pc
    case Leave(op, result, locked) =>
      var next := if op == TryRetain then TryExit(result, locked) else Idle;
      if locked then Unlock(sh, t, next) else (sh, next)
    case TryExit(_, _) => Unlock(sh, t, Idle)
  }

  /** The loads, the lock acquisitions and the short calls. */
  function PlainStep(h: nat, t: Tid, sh: Shared, pc: Pc, ch: Choice): Option<(Shared, Pc)> {
    match pc
    case Idle => Some((sh, Start(ch.op)))
    case TryEnter => Acquire(sh, t, RetainLoad(true, false))
    case RetainLoad(tr, full) => Some((sh, RetainBody(tr, full, false, sh.isa)))
    case RetainStored(tr, locked, transcribe) =>
      if transcribe then
        Some((sh.(table := sh.table + h), RetainStored(tr, locked, false)))
      else
        Some((sh, Leave(RetainOp(tr), Receiver, !tr && locked)))
    case ReleaseLoad(full) => Some((sh, ReleaseBody(full, false, sh.isa)))
    case ReleaseReload => Some((sh, ReleaseBody(true, true, sh.isa)))
    case CountEnter => Acquire(sh, t, CountLoad)
    case CountLoad =>
      Some((sh, if sh.isa.side then CountRead(sh.isa.extra) else Leave(RetainCount, Count(sh.isa.extra), true)))
    case CountRead(extra) => Some((sh, Leave(RetainCount, Count(extra + sh.table), true)))
    case FlagLoad(bit) => Some((sh, FlagBody(bit, sh.isa)))
    case FlagBody(bit, seen) =>
      if BitSet(seen.low, bit) then
        Some((sh, Leave(SetFlag(bit), Void, false)))
      else
        Some(Cas(sh, seen, seen.(low := seen.low + Pow2(bit)), ch.fail,
                 Leave(SetFlag(bit), Void, false), FlagBody(bit, sh.isa)))
    case _ => None
  }

  /** One atomic step of thread `t`, or None when it is blocked. `h` is RC_HALF. */
  function Step(h: nat, t: Tid, sh: Shared, pc: Pc, ch: Choice): Option<(Shared, Pc)> {
    if pc.RetainBody? then RetainStep(h, t, sh, pc, ch.fail)
    else if pc.ReleaseBody? then ReleaseStep(h, t, sh, pc, ch.fail)
    else if HasBorrowed(pc) then BorrowStep(h, sh, pc, ch.fail)
    else if Leaving(pc) then Some(LeaveStep(t, sh, pc))
    else PlainStep(h, t, sh, pc, ch)
  }

  /** Thread `t` moves from `s` to `s'`; every other thread stays where it is. */
  ghost predicate Next(h: nat, s: State, t: Tid, ch: Choice, s': State) {
    && t in s.pcs
    && var r := Step(h, t, s.sh, s.pcs[t], ch);
    && r.Some?
    && s' == State(r.value.0, s.pcs[t := r.value.1])
  }

  /** `initIsa` leaves extra_rc at 1; no thread is in a call. */
  ghost predicate Init(s: State) {
    && s.sh.isa.extra == 1
    && !s.sh.isa.side
    && s.sh.table == 0
    && s.sh.lock == None
    && forall t :: t in s.pcs ==> s.pcs[t] == Idle
  }
}
