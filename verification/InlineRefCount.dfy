/** `_OBJC_SUPPORTED_INLINE_REFCNT_LOGIC_BLOCK`: a reference count in one instance variable.

    The variable is twice the number of extra references: 0 stands for one reference, -2 for
    none. Marking the object as deallocating turns it odd, for good. It is a signed integer of any
    width, -m to m - 1, and wraps around. Every access to the variable is one step; any number of
    threads interleave. */
module InlineRefCount {
  type Tid = nat

  datatype Fate = Resurrect | Now | Later | Bogus

  datatype Op = Retain | Release | TryRetain | IsDeallocating

  datatype Pc =
    | Idle
    | RetainAdd
    | RetainCheck(prev: int)
    | ReleaseSub
    | ReleaseCheck(prev: int)
    // Inside _logicBlock, which decides the object's fate.
    | InBlock
    | Mark(fate: Fate)
    | Marked(fate: Fate)
    | Deallocating
    | TryLoad
    | TryStore(prev: int)
    | AskZero
    | AskBelow
    | AskParity
    | Return(answer: bool)

  /** The scheduler's choices: the call an idle thread makes, the block's verdict, and whether the
      block retains the object before it returns. */
  datatype Choice = Choice(op: Op, fate: Fate, retains: bool)

  /** What a step did to the variable. */
  datatype Effect = Silent | Add | Sub | TryAdd | SetMark

  /** The outcome of a step; `trap` is __builtin_trap, which ends the process. */
  datatype Out = Out(rc: int, pc: Pc, trap: bool, effect: Effect)

  datatype State = State(rc: int, trapped: bool, pcs: map<Tid, Pc>)

  /** The range of the variable: two's complement, wide enough for the special values. */
  predicate Width(m: nat) { m >= 4 }

  predicate InRange(m: nat, x: int) { 0 - m <= x < m }

  /** The result of an atomic addition. */
  function Wrap(m: nat, x: int): int { if x >= m then x - 2 * m else if x < 0 - m then x + 2 * m else x }

  function Start(op: Op): Pc {
    match op
    case Retain => RetainAdd
    case Release => ReleaseSub
    case TryRetain => TryLoad
    case IsDeallocating => AskZero
  }

  function Go(rc: int, pc: Pc): Out { Out(rc, pc, false, Silent) }

  function Trap(rc: int): Out { Out(rc, Idle, true, Silent) }

  function RetainReleaseStep(m: nat, rc: int, pc: Pc, ch: Choice): Out {
    match pc
    case RetainAdd => Out(Wrap(m, rc + 2), RetainCheck(rc), false, Add)
    case RetainCheck(prev) => if prev < -2 then Trap(rc) else Go(rc, Idle)
    case ReleaseSub => Out(Wrap(m, rc - 2), ReleaseCheck(rc), false, Sub)
    case ReleaseCheck(prev) => if prev > 0 then Go(rc, Idle) else if prev < 0 then Trap(rc) else Go(rc, InBlock)
    case InBlock =>
      if !ch.fate.Resurrect? then Go(rc, Mark(ch.fate))
      else if ch.retains then Out(Wrap(m, rc + 2), RetainCheck(rc), false, Add)
      else Go(rc, Idle)
    case Mark(fate) => if rc == -2 then Out(1, Marked(fate), false, SetMark) else Trap(rc)
    case Marked(fate) => if fate == Bogus then Trap(rc) else Go(rc, Deallocating)
    case _ => Go(rc, pc)
  }

  function QueryStep(m: nat, rc: int, pc: Pc): Out {
    match pc
    case TryLoad =>
      if rc % 2 == 1 || rc == -2 then Go(rc, Return(false)) else if rc < -2 then Trap(rc) else Go(rc, TryStore(rc))
    case TryStore(prev) => if rc == prev then Out(Wrap(m, prev + 2), Return(true), false, TryAdd) else Go(rc, TryLoad)
    case AskZero => if rc == -2 then Go(rc, Return(true)) else Go(rc, AskBelow)
    case AskBelow => if rc < -2 then Trap(rc) else Go(rc, AskParity)
    case AskParity => Go(rc, Return(rc % 2 == 1))
    case Return(_) => Go(rc, Idle)
    case _ => Go(rc, pc)
  }

  predicate Querying(pc: Pc) {
    pc.TryLoad? || pc.TryStore? || pc.AskZero? || pc.AskBelow? || pc.AskParity? || pc.Return?
  }

  function Step(m: nat, rc: int, pc: Pc, ch: Choice): Out {
    if pc.Idle? then Go(rc, Start(ch.op))
    else if Querying(pc) then QueryStep(m, rc, pc)
    else RetainReleaseStep(m, rc, pc, ch)
  }

  ghost predicate Next(m: nat, s: State, t: Tid, ch: Choice, s': State) {
    && !s.trapped && t in s.pcs
    && var o := Step(m, s.rc, s.pcs[t], ch);
    s' == State(o.rc, o.trap, s.pcs[t := o.pc])
  }

  /** What the step of thread t does to the variable. */
  function EffectOf(m: nat, s: State, t: Tid, ch: Choice): Effect
    requires t in s.pcs
  {
    Step(m, s.rc, s.pcs[t], ch).effect
  }

  datatype Move = Move(t: Tid, ch: Choice)

  /** A run starts with an even count, wherever the threads are. */
  ghost predicate Run(m: nat, states: seq<State>, moves: seq<Move>) {
    && |states| == |moves| + 1
    && states[0].rc % 2 == 0 && InRange(m, states[0].rc)
    && (forall t :: t in states[0].pcs ==> states[0].pcs[t] == Idle)
    && forall i :: 0 <= i < |moves| ==> Next(m, states[i], moves[i].t, moves[i].ch, states[i + 1])
  }

  ghost function EffectAt(m: nat, states: seq<State>, moves: seq<Move>, i: nat): Effect
    requires Run(m, states, moves) && i < |moves|
  {
    assert Next(m, states[i], moves[i].t, moves[i].ch, states[i + 1]);
    EffectOf(m, states[i], moves[i].t, moves[i].ch)
  }

  /** How many of the first n steps have one of the given effects. */
  ghost function Count(m: nat, states: seq<State>, moves: seq<Move>, effects: set<Effect>, n: nat): nat
    requires Run(m, states, moves) && n <= |moves|
  {
    if n == 0 then 0
    else Count(m, states, moves, effects, n - 1) + if EffectAt(m, states, moves, n - 1) in effects then 1 else 0
  }

  /** One step changes the variable by exactly its effect, up to wrap-around; a mark needs -2, a
      successful _tryRetain needs a reference and no mark. */
  lemma StepEffect(m: nat, s: State, t: Tid, ch: Choice, s': State)
    requires Width(m) && InRange(m, s.rc) && Next(m, s, t, ch, s') && TryStoreOk(s)
    ensures TryStoreOk(s') && InRange(m, s'.rc)
    ensures match EffectOf(m, s, t, ch)
            case Silent => s'.rc == s.rc
            case Add => s'.rc == Wrap(m, s.rc + 2)
            case Sub => s'.rc == Wrap(m, s.rc - 2)
            case TryAdd => s.rc >= 0 && s.rc % 2 == 0 && s'.rc == Wrap(m, s.rc + 2)
            case SetMark => s.rc == -2 && s'.rc == 1
  {
    hide Wrap;
    WrapInRange(m, s.rc);
  }

  lemma WrapInRange(m: nat, rc: int)
    requires Width(m) && InRange(m, rc)
    ensures InRange(m, Wrap(m, rc + 2)) && InRange(m, Wrap(m, rc - 2))
  {
  }

  /** How often a step wraps around: once upwards, once downwards, or not at all. */
  function WrapsBy(m: nat, rc: int, e: Effect): int {
    match e
    case Sub => if rc - 2 < 0 - m then -1 else 0
    case Add => if rc + 2 >= m then 1 else 0
    case TryAdd => if rc + 2 >= m then 1 else 0
    case _ => 0
  }

  /** How often the first n steps have wrapped around, upwards less downwards. */
  ghost function Wraps(m: nat, states: seq<State>, moves: seq<Move>, n: nat): int
    requires Run(m, states, moves) && n <= |moves|
  {
    if n == 0 then 0
    else Wraps(m, states, moves, n - 1) + WrapsBy(m, states[n - 1].rc, EffectAt(m, states, moves, n - 1))
  }

  /** What _tryRetain read was even and not negative. */
  ghost predicate TryStoreOk(s: State) {
    forall t :: t in s.pcs && s.pcs[t].TryStore? ==> s.pcs[t].prev >= 0 && s.pcs[t].prev % 2 == 0
  }

  /** Conservation: the variable is what it was, plus two for each retain, minus two for each
      release, and three more once the object is marked, less the whole range for each wrap-around.
      The mark is set at most once, and the variable is odd exactly from then on, even if it wraps
      around. */
  lemma {:induction false} CountIsExact(m: nat, states: seq<State>, moves: seq<Move>, n: nat)
    requires Width(m) && Run(m, states, moves) && n <= |moves|
    ensures TryStoreOk(states[n]) && InRange(m, states[n].rc)
    ensures states[n].rc + 2 * m * Wraps(m, states, moves, n)
            == states[0].rc
               + 2 * Count(m, states, moves, {Add, TryAdd}, n)
               - 2 * Count(m, states, moves, {Sub}, n)
               + 3 * Count(m, states, moves, {SetMark}, n)
    ensures Count(m, states, moves, {SetMark}, n) <= 1
    ensures states[n].rc % 2 == 1 <==> Count(m, states, moves, {SetMark}, n) == 1
  {
    hide Step, Wrap, WrapsBy;
    if n > 0 {
      CountIsExact(m, states, moves, n - 1);
      var s, e := states[n - 1], EffectAt(m, states, moves, n - 1);
      StepEffect(m, s, moves[n - 1].t, moves[n - 1].ch, states[n]);
      WrapParity(m, s.rc);
      WrapRange(m, s.rc, e);
      Ranges(m, Wraps(m, states, moves, n - 1), WrapsBy(m, s.rc, e));
    }
  }

  lemma Ranges(m: nat, a: int, b: int)
    ensures 2 * m * (a + b) == 2 * m * a + 2 * m * b
  {
  }

  /** Wrapping around takes off, or puts on, the whole range. */
  lemma WrapRange(m: nat, rc: int, e: Effect)
    requires Width(m) && InRange(m, rc)
    ensures e == Add || e == TryAdd ==> Wrap(m, rc + 2) + 2 * m * WrapsBy(m, rc, e) == rc + 2
    ensures e == Sub ==> Wrap(m, rc - 2) + 2 * m * WrapsBy(m, rc, e) == rc - 2
    ensures e == Silent || e == SetMark ==> 2 * m * WrapsBy(m, rc, e) == 0
  {
  }

  lemma WrapParity(m: nat, rc: int)
    ensures Wrap(m, rc + 2) % 2 == rc % 2 && Wrap(m, rc - 2) % 2 == rc % 2
  {
  }

  /** Nothing wraps around, and the count is the plain difference, as long as no step leaves the
      range. */
  lemma {:induction false} NoWrapInRange(m: nat, states: seq<State>, moves: seq<Move>, n: nat)
    requires Width(m) && Run(m, states, moves) && n <= |moves|
    requires forall i :: 0 <= i < n ==> InRange(m, states[i].rc - 2) && InRange(m, states[i].rc + 2)
    ensures Wraps(m, states, moves, n) == 0
  {
    if n > 0 {
      NoWrapInRange(m, states, moves, n - 1);
    }
  }

  /** Deallocation starts at most once in any run, and no _tryRetain succeeds at the logical count
      of zero or after the mark. */
  lemma TryRetainNeedsReference(m: nat, states: seq<State>, moves: seq<Move>, i: nat)
    requires Width(m) && Run(m, states, moves) && i < |moves| && EffectAt(m, states, moves, i) == TryAdd
    ensures states[i].rc >= 0
    ensures Count(m, states, moves, {SetMark}, i) == 0
  {
    CountIsExact(m, states, moves, i);
    StepEffect(m, states[i], moves[i].t, moves[i].ch, states[i + 1]);
  }

  // ---------------------------------------------------------------- disciplined clients

  /** The references and who holds them. */
  type Refs = multiset<Tid>

  /** Who may do what: a retain and a release need a reference of the caller's own, a release
      gives it up; a block that resurrects the object keeps the reference its retain made. No
      block returns a bogus fate. */
  ghost predicate Allowed(s: State, t: Tid, ch: Choice, refs: Refs)
    requires t in s.pcs
  {
    && (s.pcs[t].RetainAdd? || s.pcs[t].ReleaseSub? ==> refs[t] > 0)
    && (s.pcs[t].InBlock? ==> ch.fate != Bogus)
  }

  function After(refs: Refs, t: Tid, e: Effect): Refs {
    match e
    case Add => refs[t := refs[t] + 1]
    case TryAdd => refs[t := refs[t] + 1]
    case Sub => if refs[t] > 0 then refs[t := refs[t] - 1] else refs
    case _ => refs
  }

  /** A disciplined step: a step of the machine, or a reference handed to another thread. */
  ghost predicate ClientNext(m: nat, s: State, refs: Refs, s': State, refs': Refs, t: Tid, ch: Choice) {
    || (Next(m, s, t, ch, s') && Allowed(s, t, ch, refs) && refs' == After(refs, t, EffectOf(m, s, t, ch)))
    || (s' == s && refs[t] > 0 && exists u :: refs' == Handed(refs, t, u))
  }

  function Handed(refs: Refs, t: Tid, u: Tid): Refs
    requires refs[t] > 0
  {
    var rest := refs[t := refs[t] - 1];
    rest[u := rest[u] + 1]
  }

  /** This thread has taken the last reference and has not yet decided or marked. */
  predicate Last(pc: Pc) { pc == ReleaseCheck(0) || pc.InBlock? || pc.Mark? }

  ghost predicate PcOk(pc: Pc, rc: int) {
    && (pc.RetainCheck? ==> pc.prev >= -2)
    && (pc.ReleaseCheck? ==> pc.prev >= 0)
    && (Last(pc) ==> rc == -2)
    && (pc.Mark? ==> pc.fate.Now? || pc.fate.Later?)
    && (pc.Marked? ==> rc == 1 && (pc.fate.Now? || pc.fate.Later?))
    && (pc.Deallocating? ==> rc == 1)
  }

  /** The count of the references is a value of the variable. */
  ghost predicate Representable(m: nat, refs: Refs) { 2 * (|refs| - 1) < m }

  /** The limit is exact: a retain leaves the count of the references in the variable if and only
      if that count is representable. */
  lemma RetainFitsIff(m: nat, s: State, t: Tid, ch: Choice, s': State, refs: Refs)
    requires Width(m) && Next(m, s, t, ch, s') && EffectOf(m, s, t, ch) == Add && s.pcs[t].RetainAdd?
    requires s.rc == 2 * (|refs| - 1) && InRange(m, s.rc)
    ensures var refs' := After(refs, t, Add);
            s'.rc == 2 * (|refs'| - 1) <==> Representable(m, refs')
  {
  }

  ghost predicate RcOk(s: State, refs: Refs) {
    && !s.trapped && TryStoreOk(s)
    && (s.rc == 2 * (|refs| - 1) || (s.rc == 1 && |refs| == 0))
  }

  ghost predicate Inv(s: State, refs: Refs) {
    && RcOk(s, refs)
    && (forall t :: t in s.pcs ==> PcOk(s.pcs[t], s.rc))
    && (forall t, u :: t in s.pcs && u in s.pcs && Last(s.pcs[t]) && Last(s.pcs[u]) ==> t == u)
  }

  /** Under the discipline the count stays exact and no step traps. */
  lemma ActorRc(m: nat, s: State, t: Tid, ch: Choice, s': State, refs: Refs)
    requires t in s.pcs
    requires Width(m) && Representable(m, refs) && Representable(m, After(refs, t, EffectOf(m, s, t, ch)))
    requires RcOk(s, refs) && Next(m, s, t, ch, s') && Allowed(s, t, ch, refs) && PcOk(s.pcs[t], s.rc)
    ensures RcOk(s', After(refs, t, EffectOf(m, s, t, ch)))
  {
    StepEffect(m, s, t, ch, s');
    assert refs[t] > 0 ==> |refs| > 0;
  }

  /** Where the acting thread goes, and what it does to the last release. */
  lemma ActorPc(m: nat, rc: int, pc: Pc, ch: Choice, refs: Refs)
    requires Width(m) && Representable(m, refs) && (rc == 2 * (|refs| - 1) || (rc == 1 && |refs| == 0))
    requires PcOk(pc, rc) && (pc.InBlock? ==> ch.fate != Bogus)
    requires pc.RetainAdd? || pc.ReleaseSub? ==> |refs| > 0
    requires pc.TryStore? ==> pc.prev >= 0 && pc.prev % 2 == 0
    ensures PcOk(Step(m, rc, pc, ch).pc, Step(m, rc, pc, ch).rc)
    ensures Last(Step(m, rc, pc, ch).pc) ==> Last(pc) || rc == 0
    ensures Step(m, rc, pc, ch).rc != rc ==> Last(pc) || rc >= 0
    ensures rc == 1 ==> Step(m, rc, pc, ch).rc == 1
  {
  }

  lemma ClientKeepsInv(m: nat, s: State, refs: Refs, s': State, refs': Refs, t: Tid, ch: Choice)
    requires Width(m) && Representable(m, refs) && Representable(m, refs')
    requires Inv(s, refs) && ClientNext(m, s, refs, s', refs', t, ch)
    ensures Inv(s', refs')
    ensures s.rc == 1 ==> s'.rc == 1
  {
    hide Step, After;
    if Next(m, s, t, ch, s') && Allowed(s, t, ch, refs) && refs' == After(refs, t, EffectOf(m, s, t, ch)) {
      ActorRc(m, s, t, ch, s', refs);
      assert refs[t] > 0 ==> |refs| > 0;
      ActorPc(m, s.rc, s.pcs[t], ch, refs);
    } else {
      var u :| refs' == Handed(refs, t, u);
      assert |refs'| == |refs|;
    }
  }

  ghost predicate ClientRun(m: nat, states: seq<State>, refs: seq<Refs>, moves: seq<Move>) {
    && |states| == |refs| == |moves| + 1
    && states[0].rc == 0 && |refs[0]| == 1 && !states[0].trapped
    && (forall t :: t in states[0].pcs ==> states[0].pcs[t] == Idle)
    && forall i :: 0 <= i < |moves| ==>
         ClientNext(m, states[i], refs[i], states[i + 1], refs[i + 1], moves[i].t, moves[i].ch)
  }

  /** In every disciplined run with no more references than the variable can count (RetainFitsIff),
      no trap is reached, the variable is exactly the number of references that are held, and once
      the object is marked there are none, ever after. */
  lemma {:induction false} DisciplinedRunsNeverTrap(m: nat, states: seq<State>, refs: seq<Refs>, moves: seq<Move>,
                                                    n: nat)
    requires Width(m) && ClientRun(m, states, refs, moves) && n <= |moves|
    requires forall i :: 0 <= i <= n ==> Representable(m, refs[i])
    ensures Inv(states[n], refs[n]) && !states[n].trapped
    ensures states[n].rc % 2 == 0 ==> |refs[n]| == (states[n].rc + 2) / 2
    ensures states[n].rc % 2 == 1 ==> |refs[n]| == 0
    ensures forall t :: t in states[n].pcs && states[n].pcs[t].Deallocating? ==> |refs[n]| == 0
  {
    if n > 0 {
      DisciplinedRunsNeverTrap(m, states, refs, moves, n - 1);
      ClientKeepsInv(m, states[n - 1], refs[n - 1], states[n], refs[n], moves[n - 1].t, moves[n - 1].ch);
    }
  }

  // ---------------------------------------------------------------- deallocation does start

  /** No block resurrects the object. */
  ghost predicate NoResurrection(states: seq<State>, moves: seq<Move>)
    requires |states| == |moves| + 1
  {
    forall i :: 0 <= i < |moves| && moves[i].t in states[i].pcs && states[i].pcs[moves[i].t].InBlock? ==>
      !moves[i].ch.fate.Resurrect?
  }

  /** With no reference left and no mark, a thread is on its way to set the mark; with the mark, a
      thread is on its way to deallocate, or has begun to, and no other. */
  ghost predicate OnItsWay(s: State) {
    && (s.rc == -2 ==> exists t :: t in s.pcs && Last(s.pcs[t]))
    && (s.rc == 1 ==> exists t :: t in s.pcs && HasMarked(s.pcs[t]))
    && (forall t, u :: t in s.pcs && u in s.pcs && HasMarked(s.pcs[t]) && HasMarked(s.pcs[u]) ==> t == u)
  }

  predicate HasMarked(pc: Pc) { pc.Marked? || pc.Deallocating? }

  /** Where the acting thread goes, once more: the last releaser marks, and who marks deallocates. */
  lemma ActorOnItsWay(m: nat, rc: int, pc: Pc, ch: Choice, refs: Refs)
    requires Width(m) && Representable(m, refs) && (rc == 2 * (|refs| - 1) || (rc == 1 && |refs| == 0))
    requires PcOk(pc, rc) && (pc.InBlock? ==> ch.fate.Now? || ch.fate.Later?)
    requires pc.RetainAdd? || pc.ReleaseSub? ==> |refs| > 0
    requires pc.TryStore? ==> pc.prev >= 0 && pc.prev % 2 == 0
    ensures var o := Step(m, rc, pc, ch);
            && (o.rc == -2 && (rc != -2 || Last(pc)) ==> Last(o.pc))
            && (o.rc == 1 && (rc != 1 || HasMarked(pc)) ==> HasMarked(o.pc))
            && (HasMarked(o.pc) ==> HasMarked(pc) || rc == -2)
            && (rc == 1 ==> o.rc == 1) && (HasMarked(o.pc) ==> o.rc == 1)
  {
    hide Wrap;
    WrapSmall(m, rc);
  }

  lemma WrapSmall(m: nat, rc: int)
    requires Width(m)
    ensures InRange(m, rc + 2) ==> Wrap(m, rc + 2) == rc + 2
    ensures InRange(m, rc - 2) ==> Wrap(m, rc - 2) == rc - 2
    ensures -2 <= rc < m && rc % 2 == 0 ==> Wrap(m, rc + 2) != -2 && Wrap(m, rc + 2) != 1
  {
  }

  lemma ClientOnItsWay(m: nat, s: State, refs: Refs, s': State, refs': Refs, t: Tid, ch: Choice)
    requires Width(m) && Representable(m, refs) && Representable(m, refs')
    requires Inv(s, refs) && OnItsWay(s) && ClientNext(m, s, refs, s', refs', t, ch)
    requires t in s.pcs && s.pcs[t].InBlock? ==> !ch.fate.Resurrect?
    ensures OnItsWay(s')
  {
    hide Step, After, Last, HasMarked, Handed;
    if Next(m, s, t, ch, s') && Allowed(s, t, ch, refs) && refs' == After(refs, t, EffectOf(m, s, t, ch)) {
      assert refs[t] > 0 ==> |refs| > 0;
      ActorOnItsWay(m, s.rc, s.pcs[t], ch, refs);
      MarkedMeansOne(s, refs);
      if s'.rc == -2 {
        if s.rc == -2 {
          var u :| u in s.pcs && Last(s.pcs[u]);
          assert u in s'.pcs && Last(s'.pcs[u]);
        } else {
          assert t in s'.pcs && Last(s'.pcs[t]);
        }
      }
      if s'.rc == 1 {
        if s.rc == 1 {
          var u :| u in s.pcs && HasMarked(s.pcs[u]);
          assert u in s'.pcs && HasMarked(s'.pcs[u]);
        } else {
          assert t in s'.pcs && HasMarked(s'.pcs[t]);
        }
      }
    }
  }

  lemma MarkedMeansOne(s: State, refs: Refs)
    requires Inv(s, refs)
    ensures forall t :: t in s.pcs && HasMarked(s.pcs[t]) ==> s.rc == 1
  {
  }

  lemma {:induction false} RunOnItsWay(m: nat, states: seq<State>, refs: seq<Refs>, moves: seq<Move>, n: nat)
    requires Width(m) && ClientRun(m, states, refs, moves) && n <= |moves| && NoResurrection(states, moves)
    requires forall i :: 0 <= i <= n ==> Representable(m, refs[i])
    ensures OnItsWay(states[n])
  {
    hide ClientNext, Inv, Representable;
    if n > 0 {
      RunOnItsWay(m, states, refs, moves, n - 1);
      DisciplinedRunsNeverTrap(m, states, refs, moves, n - 1);
      ClientOnItsWay(m, states[n - 1], refs[n - 1], states[n], refs[n], moves[n - 1].t, moves[n - 1].ch);
    }
  }

  /** When the last reference is gone and every call has returned, the object is marked and exactly
      one thread deallocates it: with a reference left or a call under way nothing is promised, and
      otherwise nothing is forgotten. */
  lemma DeallocationStarts(m: nat, states: seq<State>, refs: seq<Refs>, moves: seq<Move>, n: nat)
    requires Width(m) && ClientRun(m, states, refs, moves) && n <= |moves| && NoResurrection(states, moves)
    requires forall i :: 0 <= i <= n ==> Representable(m, refs[i])
    requires |refs[n]| == 0
    requires forall t :: t in states[n].pcs ==> states[n].pcs[t].Idle? || states[n].pcs[t].Deallocating?
    ensures states[n].rc == 1
    ensures exists t :: t in states[n].pcs && states[n].pcs[t].Deallocating?
    ensures forall t, u :: t in states[n].pcs && u in states[n].pcs ==>
              states[n].pcs[t].Deallocating? && states[n].pcs[u].Deallocating? ==> t == u
  {
    RunOnItsWay(m, states, refs, moves, n);
    DisciplinedRunsNeverTrap(m, states, refs, moves, n);
    if states[n].rc == 1 {
      var t :| t in states[n].pcs && HasMarked(states[n].pcs[t]);
      assert states[n].pcs[t].Deallocating?;
    }
  }

  // ---------------------------------------------------------------- answers

  /** What the queries answer: _tryRetain succeeds by taking a reference and fails at logical zero or
      after the mark; _isDeallocating answers yes at logical zero or after the mark. */
  lemma QueryAnswers(m: nat, s: State, t: Tid, ch: Choice, s': State)
    requires Next(m, s, t, ch, s')
    ensures s.pcs[t].TryStore? ==> (s'.pcs[t] == Return(true) <==> EffectOf(m, s, t, ch) == TryAdd)
    ensures s.pcs[t].TryStore? ==> s'.pcs[t] == Return(true) || s'.pcs[t] == TryLoad
    ensures s.pcs[t].TryLoad? ==> (s'.pcs[t] == Return(false) <==> s.rc % 2 == 1 || s.rc == -2)
    ensures s.pcs[t].TryLoad? && s.rc >= 0 && s.rc % 2 == 0 ==> s'.pcs[t] == TryStore(s.rc)
    ensures s.pcs[t].AskZero? ==> s'.pcs[t] == if s.rc == -2 then Return(true) else AskBelow
    ensures s.pcs[t].AskBelow? && s.rc >= -2 ==> s'.pcs[t] == AskParity
    ensures s.pcs[t].AskParity? ==> s'.pcs[t] == Return(s.rc % 2 == 1)
    ensures EffectOf(m, s, t, ch) == TryAdd ==> s.pcs[t].TryStore?
  {
  }

  /** Once the mark is set, _isDeallocating answers yes and _tryRetain no, for good. */
  lemma AnswersAfterMark(m: nat, states: seq<State>, moves: seq<Move>, n: nat, t: Tid)
    requires Width(m) && Run(m, states, moves) && n < |moves| && moves[n].t == t && t in states[n].pcs
    requires Count(m, states, moves, {SetMark}, n) == 1
    ensures states[n].pcs[t].AskParity? ==> states[n + 1].pcs[t] == Return(true)
    ensures states[n].pcs[t].TryLoad? ==> states[n + 1].pcs[t] == Return(false)
    ensures states[n].pcs[t].TryStore? ==> states[n + 1].pcs[t] == TryLoad
  {
    hide Step;
    CountIsExact(m, states, moves, n);
    assert Next(m, states[n], t, moves[n].ch, states[n + 1]);
    QueryAnswers(m, states[n], t, moves[n].ch, states[n + 1]);
    StepEffect(m, states[n], t, moves[n].ch, states[n + 1]);
  }

  // ---------------------------------------------------------------- traps

  /** The next step of this thread ends the process. */
  predicate Doomed(rc: int, pc: Pc) {
    match pc
    case RetainCheck(prev) => prev < -2
    case ReleaseCheck(prev) => prev < 0
    case Mark(_) => rc != -2
    case Marked(fate) => fate == Bogus
    case TryLoad => rc < -2 && rc % 2 == 0
    case AskBelow => rc < -2
    case _ => false
  }

  lemma TrapsIff(m: nat, s: State, t: Tid, ch: Choice, s': State)
    requires Next(m, s, t, ch, s')
    ensures s'.trapped <==> Doomed(s.rc, s.pcs[t])
  {
  }

  /** Misuse: a release without a reference, a retain below zero references, or a mark upon a verdict
      that is none. */
  ghost predicate Misuse(m: nat, s: State, t: Tid, ch: Choice)
    requires t in s.pcs
  {
    || (EffectOf(m, s, t, ch) == Sub && s.rc < 0)
    || (EffectOf(m, s, t, ch) == Add && s.rc < -2)
    || (EffectOf(m, s, t, ch) == SetMark && s.pcs[t] == Mark(Bogus))
  }

  /** Caught for good: whatever the others do meanwhile, the thread's next step is a trap. */
  predicate Caught(pc: Pc) { Doomed(-2, pc) }

  lemma MisuseCaught(m: nat, s: State, t: Tid, ch: Choice, s': State)
    requires Next(m, s, t, ch, s') && Misuse(m, s, t, ch)
    ensures Caught(s'.pcs[t])
  {
  }

  lemma CaughtStays(m: nat, s: State, t: Tid, ch: Choice, s': State, u: Tid)
    requires Next(m, s, t, ch, s') && u in s.pcs && Caught(s.pcs[u])
    ensures s'.trapped || (u in s'.pcs && Caught(s'.pcs[u]))
  {
    hide Step;
    TrapsIff(m, s, t, ch, s');
  }

  /** No misuse goes unnoticed: from the step on, in any interleaving, the process has trapped or the
      thread is about to. */
  lemma {:induction false} MisuseTraps(m: nat, states: seq<State>, moves: seq<Move>, i: nat, n: nat)
    requires Run(m, states, moves) && i < n <= |moves|
    requires moves[i].t in states[i].pcs && Misuse(m, states[i], moves[i].t, moves[i].ch)
    ensures states[n].trapped || (moves[i].t in states[n].pcs && Caught(states[n].pcs[moves[i].t]))
    decreases n
  {
    hide Step, Caught, Misuse;
    assert Next(m, states[n - 1], moves[n - 1].t, moves[n - 1].ch, states[n]);
    if n == i + 1 {
      MisuseCaught(m, states[i], moves[i].t, moves[i].ch, states[n]);
    } else {
      MisuseTraps(m, states, moves, i, n - 1);
      CaughtStays(m, states[n - 1], moves[n - 1].t, moves[n - 1].ch, states[n], moves[i].t);
    }
  }

  /** So a run at rest that did not trap had no misuse: every release had a reference to give up. */
  lemma QuietRunHadNoMisuse(m: nat, states: seq<State>, moves: seq<Move>, i: nat)
    requires Run(m, states, moves) && i < |moves| && moves[i].t in states[i].pcs
    requires var s := states[|moves|];
             !s.trapped && forall t :: t in s.pcs ==> s.pcs[t].Idle? || s.pcs[t].Deallocating?
    ensures !Misuse(m, states[i], moves[i].t, moves[i].ch)
  {
    if Misuse(m, states[i], moves[i].t, moves[i].ch) {
      MisuseTraps(m, states, moves, i, |moves|);
    }
  }

  // ---------------------------------------------------------------- one call by itself

  /** How a call ends. */
  datatype Outcome = Returned(rc: int) | Answered(rc: int, answer: bool) | Deallocates(rc: int) | Trapped | Unfinished

  /** A call that nobody interrupts, for at most `fuel` steps. */
  function Solo(m: nat, rc: int, pc: Pc, ch: Choice, fuel: nat): Outcome
    decreases fuel
  {
    if fuel == 0 then Unfinished
    else
      var o := Step(m, rc, pc, ch);
      if o.trap then Trapped
      else if o.pc.Deallocating? then Deallocates(o.rc)
      else if !o.pc.Idle? then Solo(m, o.rc, o.pc, ch, fuel - 1)
      else if pc.Return? then Answered(o.rc, pc.answer)
      else Returned(o.rc)
  }

  /** The last release obeys the block's verdict. */
  function LastRelease(ch: Choice): Outcome {
    match ch.fate
    case Resurrect => Returned(if ch.retains then 0 else -2)
    case Bogus => Trapped
    case _ => Deallocates(1)
  }

  /** What each call means: with r references the variable is 2 (r - 1). Below one reference a
      release traps; below none every call does, but a _tryRetain that sees the mark. */
  function Meaning(m: nat, rc: int, ch: Choice): Outcome {
    match ch.op
    case Retain => if rc < -2 then Trapped else Returned(Wrap(m, rc + 2))
    case Release =>
      if rc < 0 then Trapped
      else if rc > 0 then Returned(Wrap(m, rc - 2))
      else LastRelease(ch)
    case TryRetain =>
      if rc % 2 == 1 || rc == -2 then Answered(rc, false)
      else if rc < -2 then Trapped
      else Answered(Wrap(m, rc + 2), true)
    case IsDeallocating => if rc < -2 then Trapped else Answered(rc, rc == -2 || rc % 2 == 1)
  }

  /** Every call that runs by itself ends within six steps and does what it means. */
  lemma SoloMeans(m: nat, rc: int, ch: Choice)
    requires Width(m) && InRange(m, rc)
    ensures Solo(m, rc, Idle, ch, 6) == Meaning(m, rc, ch)
  {
    hide Solo, Wrap;
    var first := Start(ch.op);
    SoloOne(m, rc, Idle, ch, 6);
    SoloOne(m, rc, first, ch, 5);
    match ch.op
    case Retain => SoloOne(m, Wrap(m, rc + 2), RetainCheck(rc), ch, 4);
    case Release =>
      SoloOne(m, Wrap(m, rc - 2), ReleaseCheck(rc), ch, 4);
      if rc == 0 { SoloLast(m, ch); }
    case TryRetain => SoloTry(m, rc, ch);
    case IsDeallocating =>
      SoloOne(m, rc, AskBelow, ch, 4);
      SoloOne(m, rc, AskParity, ch, 3);
      SoloOne(m, rc, Return(true), ch, 4);
      SoloOne(m, rc, Return(rc % 2 == 1), ch, 2);
  }

  lemma SoloOne(m: nat, rc: int, pc: Pc, ch: Choice, fuel: nat)
    requires fuel > 0
    ensures var o := Step(m, rc, pc, ch);
            Solo(m, rc, pc, ch, fuel) ==
            if o.trap then Trapped
            else if o.pc.Deallocating? then Deallocates(o.rc)
            else if !o.pc.Idle? then Solo(m, o.rc, o.pc, ch, fuel - 1)
            else if pc.Return? then Answered(o.rc, pc.answer)
            else Returned(o.rc)
  {
  }

  lemma SoloTry(m: nat, rc: int, ch: Choice)
    ensures rc >= 0 ==> Solo(m, rc, TryStore(rc), ch, 4) == Answered(Wrap(m, rc + 2), true)
    ensures Solo(m, rc, Return(false), ch, 4) == Answered(rc, false)
  {
    hide Solo, Wrap;
    SoloOne(m, rc, TryStore(rc), ch, 4);
    SoloOne(m, rc, Return(false), ch, 4);
    SoloOne(m, Wrap(m, rc + 2), Return(true), ch, 3);
  }

  /** The last release, from inside the block on. */
  lemma SoloLast(m: nat, ch: Choice)
    requires Width(m)
    ensures Wrap(m, -2) == -2
    ensures Solo(m, -2, InBlock, ch, 3) == LastRelease(ch)
  {
    hide Solo;
    SoloOne(m, -2, InBlock, ch, 3);
    SoloOne(m, 0, RetainCheck(-2), ch, 2);
    SoloOne(m, -2, Mark(ch.fate), ch, 2);
    SoloOne(m, 1, Marked(ch.fate), ch, 1);
  }
}
