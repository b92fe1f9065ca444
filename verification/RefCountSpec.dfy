/** The atomic counter that the reference counting machine implements.

    Every call has one instant, between its invocation and its return, at which it acts on a
    single number `rc` as `Apply` says; the value it later returns is the one `Apply` gave. */
module AtomicCounter {
  import opened Wrappers
  import opened RefCount

  datatype Call = Outside | Pending(op: Op) | Answered(op: Op, result: Result)

  datatype Abs = Abs(rc: nat, calls: map<Tid, Call>)

  /** The sequential meaning of each operation: new count and returned value. A count of zero
      is the deallocating state. */
  function Apply(op: Op, rc: nat): (nat, Result) {
    match op
    case Retain => (if rc > 0 then rc + 1 else 0, Receiver)
    case TryRetain => if rc > 0 then (rc + 1, Receiver) else (0, Nil)
    case Release => if rc > 0 then (rc - 1, Dealloc(rc == 1)) else (0, Dealloc(false))
    case RetainCount => (rc, Count(rc))
    case SetFlag(_) => (rc, Void)
  }

  /** The call of one thread advances: it is invoked, takes effect, returns, or stays put. */
  ghost predicate Advances(rc: nat, c: Call, rc': nat, c': Call) {
    || (rc' == rc && c' == c)
    || (rc' == rc && c == Outside && c'.Pending?)
    || (c.Pending? && c'.Answered? && c'.op == c.op && (rc', c'.result) == Apply(c.op, rc))
    || (rc' == rc && c.Answered? && c' == Outside)
  }

  ghost predicate AbsNext(a: Abs, t: Tid, a': Abs) {
    && t in a.calls
    && t in a'.calls
    && a'.calls == a.calls[t := a'.calls[t]]
    && Advances(a.rc, a.calls[t], a'.rc, a'.calls[t])
  }

  ghost predicate AbsRun(run: seq<Abs>, ts: seq<Tid>) {
    && |run| == |ts| + 1
    && run[0].rc == 1
    && (forall t :: t in run[0].calls ==> run[0].calls[t] == Outside)
    && forall i :: 0 <= i < |ts| ==> AbsNext(run[i], ts[i], run[i + 1])
  }

  /** Step `i` of a run is the instant at which a call takes effect. */
  ghost predicate TakesEffect(run: seq<Abs>, ts: seq<Tid>, i: nat)
    requires AbsRun(run, ts) && i < |ts|
  {
    && AbsNext(run[i], ts[i], run[i + 1])
    && run[i].calls[ts[i]].Pending?
    && run[i + 1].calls[ts[i]].Answered?
  }

  /** How many of the first `n` steps are the effect of `op` on a live object. */
  ghost function Effects(run: seq<Abs>, ts: seq<Tid>, ops: set<Op>, n: nat): nat
    requires AbsRun(run, ts) && n <= |ts|
  {
    if n == 0 then 0
    else Effects(run, ts, ops, n - 1)
         + (if TakesEffect(run, ts, n - 1) && run[n - 1].rc > 0 && run[n - 1].calls[ts[n - 1]].op in ops then 1 else 0)
  }

  /** How many of the first `n` steps make a release answer "deallocate now". */
  ghost function Deallocations(run: seq<Abs>, ts: seq<Tid>, n: nat): nat
    requires AbsRun(run, ts) && n <= |ts|
  {
    if n == 0 then 0
    else Deallocations(run, ts, n - 1)
         + (if TakesEffect(run, ts, n - 1) && run[n].calls[ts[n - 1]].result == Dealloc(true) then 1 else 0)
  }

  /** Conservation: the count is one, plus the retains, minus the releases of a live object. */
  lemma {:induction false} CountIsConserved(run: seq<Abs>, ts: seq<Tid>, n: nat)
    requires AbsRun(run, ts) && n <= |ts|
    ensures run[n].rc + Effects(run, ts, {Release}, n) == 1 + Effects(run, ts, {Retain, TryRetain}, n)
  {
    if n > 0 {
      CountIsConserved(run, ts, n - 1);
      assert AbsNext(run[n - 1], ts[n - 1], run[n]);
    }
  }

  /** Zero is never left. */
  lemma {:induction false} ZeroIsForever(run: seq<Abs>, ts: seq<Tid>, m: nat, n: nat)
    requires AbsRun(run, ts) && m <= n <= |ts| && run[m].rc == 0
    ensures run[n].rc == 0
    decreases n - m
  {
    if m < n {
      assert AbsNext(run[m], ts[m], run[m + 1]);
      ZeroIsForever(run, ts, m + 1, n);
    }
  }

  /** Exactly one release is told to deallocate once the count is zero, and none before. */
  lemma {:induction false} OneDeallocation(run: seq<Abs>, ts: seq<Tid>, n: nat)
    requires AbsRun(run, ts) && n <= |ts|
    ensures Deallocations(run, ts, n) == if run[n].rc == 0 then 1 else 0
  {
    if n > 0 {
      OneDeallocation(run, ts, n - 1);
      assert AbsNext(run[n - 1], ts[n - 1], run[n]);
    }
  }
}

/** The machine refines the atomic counter. */
module RefCountRefinement {
  import opened Wrappers
  import opened RefCount
  import opened RefCountInvariant
  import opened AtomicCounter

  /** Where a thread stands, seen from outside. The side table is passed because the answer of
      rootRetainCount is complete only with it. */
  function AlphaPc(table: nat, pc: Pc): Call {
    match pc
    case RetainLoad(tr, _) => Pending(RetainOp(tr))
    case RetainBody(tr, _, _, _) => Pending(RetainOp(tr))
    case RetainStored(tr, _, _) => Answered(RetainOp(tr), Receiver)
    case ReleaseLoad(_) => Pending(Release)
    case ReleaseBody(_, _, _) => Pending(Release)
    case ReleaseReload => Pending(Release)
    case ReleaseBorrowed(_, _, _) => Pending(Release)
    case ReleaseRetryStore(_, _, _) => Pending(Release)
    case ReleasePutBack(_) => Pending(Release)
    case ReleaseStored(_, dealloc) => Answered(Release, Dealloc(dealloc))
    case CountEnter => Pending(RetainCount)
    case CountLoad => Pending(RetainCount)
    case CountRead(extra) => Answered(RetainCount, Count(extra + table))
    case FlagLoad(bit) => Pending(SetFlag(bit))
    case FlagBody(bit, _) => Pending(SetFlag(bit))
    case Leave(op, result, _) => Answered(op, result)
    case _ => Outside
  }

  /** The true retain count: inline, in the side table, and in the lock holder's hands. */
  function RcOf(sh: Shared, flight: nat): nat { sh.isa.extra + sh.table + flight }

  ghost function Alpha(h: nat, s: State): Abs {
    Abs(RcOf(s.sh, Flight(h, s)), map t | t in s.pcs :: AlphaPc(s.sh.table, s.pcs[t]))
  }

  /** The object is deallocating exactly when its true count is zero. */
  lemma DeallocatingIffZero(h: nat, s: State)
    requires h >= 2 && Inv(h, s)
    ensures s.sh.isa.IsDeallocating() <==> Alpha(h, s).rc == 0
  {
  }

  /** One step of a thread advances its call and the count as the atomic counter allows. */
  ghost predicate Simulates(sh: Shared, pc: Pc, flight: nat, after: (Shared, Pc), flight': nat) {
    Advances(RcOf(sh, flight), AlphaPc(sh.table, pc), RcOf(after.0, flight'), AlphaPc(after.0.table, after.1))
  }

  /** What the lock holder has in flight after thread `t` moved. */
  function FlightAfter(h: nat, t: Tid, sh: Shared, flight: nat, after: (Shared, Pc)): nat {
    if after.0.lock == Some(t) then InFlight(h, after.1)
    else if sh.lock == Some(t) then 0
    else flight
  }

  lemma RetainStepSimulates(h: nat, t: Tid, sh: Shared, pc: Pc, fail: bool, flight: nat)
    requires h >= 2 && pc.RetainBody? && Ready(h, t, sh, pc, flight)
    requires RetainStep(h, t, sh, pc, fail).Some?
    ensures var after := RetainStep(h, t, sh, pc, fail).value;
            Simulates(sh, pc, flight, after, FlightAfter(h, t, sh, flight, after))
  {
  }

  lemma ReleaseStepSimulates(h: nat, t: Tid, sh: Shared, pc: Pc, fail: bool, flight: nat)
    requires h >= 2 && pc.ReleaseBody? && Ready(h, t, sh, pc, flight)
    requires ReleaseStep(h, t, sh, pc, fail).Some?
    ensures var after := ReleaseStep(h, t, sh, pc, fail).value;
            Simulates(sh, pc, flight, after, FlightAfter(h, t, sh, flight, after))
  {
  }

  lemma BorrowStepSimulates(h: nat, t: Tid, sh: Shared, pc: Pc, fail: bool, flight: nat)
    requires h >= 2 && HasBorrowed(pc) && Ready(h, t, sh, pc, flight)
    requires BorrowStep(h, sh, pc, fail).Some?
    ensures var after := BorrowStep(h, sh, pc, fail).value;
            Simulates(sh, pc, flight, after, FlightAfter(h, t, sh, flight, after))
  {
  }

  lemma PlainStepSimulates(h: nat, t: Tid, sh: Shared, pc: Pc, ch: Choice, flight: nat)
    requires h >= 2 && Ready(h, t, sh, pc, flight)
    requires PlainStep(h, t, sh, pc, ch).Some?
    ensures var after := PlainStep(h, t, sh, pc, ch).value;
            Simulates(sh, pc, flight, after, FlightAfter(h, t, sh, flight, after))
  {
  }

  lemma StepSimulates(h: nat, t: Tid, sh: Shared, pc: Pc, ch: Choice, flight: nat)
    requires h >= 2 && Ready(h, t, sh, pc, flight)
    requires Step(h, t, sh, pc, ch).Some?
    ensures var after := Step(h, t, sh, pc, ch).value;
            Simulates(sh, pc, flight, after, FlightAfter(h, t, sh, flight, after))
  {
    if pc.RetainBody? { RetainStepSimulates(h, t, sh, pc, ch.fail, flight); }
    else if pc.ReleaseBody? { ReleaseStepSimulates(h, t, sh, pc, ch.fail, flight); }
    else if HasBorrowed(pc) { BorrowStepSimulates(h, t, sh, pc, ch.fail, flight); }
    else if Leaving(pc) { }
    else { PlainStepSimulates(h, t, sh, pc, ch, flight); }
  }

  /** A step leaves the calls of the other threads where they are. */
  lemma CallStable(u: Tid, sh: Shared, sh': Shared, pc: Pc)
    requires Rely(u, sh, sh') && (Holds(pc) <==> sh.lock == Some(u))
    ensures AlphaPc(sh'.table, pc) == AlphaPc(sh.table, pc)
  {
  }

  lemma FlightMoves(h: nat, s: State, t: Tid, ch: Choice, s': State)
    requires h >= 2 && Inv(h, s) && Next(h, s, t, ch, s')
    ensures Flight(h, s') == FlightAfter(h, t, s.sh, Flight(h, s), (s'.sh, s'.pcs[t]))
  {
    if s.sh.lock.Some? && s.sh.lock.value != t {
      StepGuarantee(h, t, s.sh.lock.value, s.sh, s.pcs[t], ch, Flight(h, s));
    } else if s'.sh.lock.Some? && s'.sh.lock.value != t {
      StepGuarantee(h, t, s'.sh.lock.value, s.sh, s.pcs[t], ch, Flight(h, s));
    }
  }

  /** Forward simulation: every step of the machine is a step of the atomic counter. */
  lemma NextRefines(h: nat, s: State, t: Tid, ch: Choice, s': State)
    requires h >= 2 && Inv(h, s) && Next(h, s, t, ch, s')
    ensures AbsNext(Alpha(h, s), t, Alpha(h, s'))
  {
    var a, a' := Alpha(h, s), Alpha(h, s');
    FlightMoves(h, s, t, ch, s');
    StepSimulates(h, t, s.sh, s.pcs[t], ch, Flight(h, s));
    forall u | u in s.pcs && u != t
      ensures AlphaPc(s'.sh.table, s'.pcs[u]) == AlphaPc(s.sh.table, s.pcs[u])
    {
      StepGuarantee(h, t, u, s.sh, s.pcs[t], ch, Flight(h, s));
      CallStable(u, s.sh, s'.sh, s.pcs[u]);
    }
    assert a'.calls == a.calls[t := a'.calls[t]];
  }
}
