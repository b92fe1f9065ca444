/** `ChainedHookFunction::set`: hooks installed concurrently form one chain. */
module ChainedHook {
  type Fn = nat
  type Variable = nat

  /** A call of set(fn, &variable). */
  datatype Call = Call(fn: Fn, variable: Variable)

  /** `seen` is oldValue. */
  datatype Pc = Before | Loaded(seen: Fn) | Stored(seen: Fn) | Done

  /** The hook, the callers' variables, and where each call is. */
  datatype State = State(hook: Fn, vars: map<Variable, Fn>, pcs: seq<Pc>)

  /** The hooks differ from each other and from the initial function, and so do the variables. */
  ghost predicate Distinct(first: Fn, calls: seq<Call>) {
    && (forall i :: 0 <= i < |calls| ==> calls[i].fn != first)
    && (forall i, j :: 0 <= i < j < |calls| ==> calls[i].fn != calls[j].fn)
    && (forall i, j :: 0 <= i < j < |calls| ==> calls[i].variable != calls[j].variable)
  }

  /** Call i loads the hook, stores what it saw, or tries its compare-and-swap, which may fail
      spuriously and then reloads. */
  ghost predicate Next(calls: seq<Call>, s: State, i: nat, fail: bool, s': State) {
    && |s.pcs| == |calls| && i < |calls|
    && match s.pcs[i]
       case Before => s' == s.(pcs := s.pcs[i := Loaded(s.hook)])
       case Loaded(seen) => s' == s.(vars := s.vars[calls[i].variable := seen], pcs := s.pcs[i := Stored(seen)])
       case Stored(seen) =>
         if s.hook == seen && !fail then s' == s.(hook := calls[i].fn, pcs := s.pcs[i := Done])
         else s' == s.(pcs := s.pcs[i := Loaded(s.hook)])
       case Done => false
  }

  datatype Move = Move(i: nat, fail: bool)

  ghost predicate Run(first: Fn, calls: seq<Call>, states: seq<State>, moves: seq<Move>) {
    && |states| == |moves| + 1
    && states[0].hook == first && |states[0].pcs| == |calls|
    && (forall i :: 0 <= i < |calls| ==> states[0].pcs[i] == Before)
    && forall k :: 0 <= k < |moves| ==> Next(calls, states[k], moves[k].i, moves[k].fail, states[k + 1])
  }

  /** The calls that have installed their hook after n steps, newest first. */
  ghost function Installed(first: Fn, calls: seq<Call>, states: seq<State>, moves: seq<Move>, n: nat): seq<nat>
    requires Run(first, calls, states, moves) && n <= |moves|
  {
    if n == 0 then []
    else
      var before := Installed(first, calls, states, moves, n - 1);
      assert Next(calls, states[n - 1], moves[n - 1].i, moves[n - 1].fail, states[n]);
      if states[n].pcs[moves[n - 1].i] == Done then [moves[n - 1].i] + before else before
  }

  /** What a hook calls next: the value of the variable it was installed with. The initial
      function calls nothing. */
  ghost function Successor(calls: seq<Call>, s: State, f: Fn): Fn {
    if exists i :: 0 <= i < |calls| && calls[i].fn == f && calls[i].variable in s.vars then
      var i :| 0 <= i < |calls| && calls[i].fn == f && calls[i].variable in s.vars;
      s.vars[calls[i].variable]
    else f
  }

  /** The k-th function reached by following the variables from the current hook. */
  ghost function Visited(calls: seq<Call>, s: State, k: nat): Fn {
    if k == 0 then s.hook else Successor(calls, s, Visited(calls, s, k - 1))
  }

  /** The function at place k of the chain that `order` describes. */
  function Place(first: Fn, calls: seq<Call>, order: seq<nat>, k: nat): Fn
    requires k <= |order| && forall j :: 0 <= j < |order| ==> order[j] < |calls|
  {
    if k < |order| then calls[order[k]].fn else first
  }

  ghost predicate InRange(calls: seq<Call>, order: seq<nat>) {
    forall j :: 0 <= j < |order| ==> order[j] < |calls|
  }

  /** The hook starts the chain, and the variable of every installed call holds the next place. */
  ghost predicate Linked(first: Fn, calls: seq<Call>, s: State, order: seq<nat>)
    requires InRange(calls, order)
  {
    && s.hook == Place(first, calls, order, 0)
    && forall k :: 0 <= k < |order| ==>
         && calls[order[k]].variable in s.vars
         && s.vars[calls[order[k]].variable] == Place(first, calls, order, k + 1)
  }

  /** `order` names the finished calls, each once. */
  ghost predicate Lists(s: State, order: seq<nat>) {
    && (forall i :: 0 <= i < |s.pcs| ==> (s.pcs[i] == Done <==> i in order))
    && (forall j, k :: 0 <= j < k < |order| ==> order[j] != order[k])
  }

  ghost predicate Inv(first: Fn, calls: seq<Call>, s: State, order: seq<nat>) {
    && |s.pcs| == |calls| && InRange(calls, order)
    && Linked(first, calls, s, order) && Lists(s, order) && StoredOk(calls, s)
  }

  /** A call that is about to try its compare-and-swap has stored what it saw. */
  ghost predicate StoredOk(calls: seq<Call>, s: State)
    requires |s.pcs| == |calls|
  {
    forall i :: 0 <= i < |calls| && s.pcs[i].Stored? ==>
      calls[i].variable in s.vars && s.vars[calls[i].variable] == s.pcs[i].seen
  }

  /** Installing a hook puts it in front of the chain. */
  lemma InstallLinks(first: Fn, calls: seq<Call>, s: State, i: nat, order: seq<nat>)
    requires |s.pcs| == |calls| && i < |calls| && InRange(calls, order) && Linked(first, calls, s, order)
    requires calls[i].variable in s.vars && s.vars[calls[i].variable] == s.hook
    ensures InRange(calls, [i] + order)
    ensures Linked(first, calls, s.(hook := calls[i].fn, pcs := s.pcs[i := Done]), [i] + order)
  {
    var order' := [i] + order;
    forall k | 0 <= k <= |order| ensures Place(first, calls, order', k + 1) == Place(first, calls, order, k) {
    }
    forall k | 0 < k < |order'| ensures s.vars[calls[order'[k]].variable] == Place(first, calls, order', k + 1) {
      assert order'[k] == order[k - 1];
    }
  }

  lemma InstallLists(calls: seq<Call>, s: State, i: nat, order: seq<nat>)
    requires |calls| == |s.pcs| && i < |s.pcs| && s.pcs[i] != Done && Lists(s, order)
    ensures Lists(s.(hook := calls[i].fn, pcs := s.pcs[i := Done]), [i] + order)
  {
    var order' := [i] + order;
    forall j | 0 <= j < |s.pcs| ensures j in order' <==> j == i || j in order {
    }
  }

  /** Storing into one's own variable touches no link of the chain. */
  lemma StoreKeepsLinks(first: Fn, calls: seq<Call>, s: State, i: nat, v: Fn, order: seq<nat>)
    requires Distinct(first, calls) && |s.pcs| == |calls| && i < |calls| && InRange(calls, order)
    requires Linked(first, calls, s, order) && Lists(s, order) && s.pcs[i] != Done
    ensures Linked(first, calls, s.(vars := s.vars[calls[i].variable := v]), order)
    ensures Lists(s.(vars := s.vars[calls[i].variable := v]), order)
  {
    hide Place;
    forall k | 0 <= k < |order| ensures calls[order[k]].variable != calls[i].variable {
      assert order[k] in order;
      assert order[k] < i || i < order[k];
    }
  }

  /** The step that installs a hook puts it in front of the chain; every other step leaves the
      chain as it is. */
  lemma NextKeepsInv(first: Fn, calls: seq<Call>, s: State, i: nat, fail: bool, s': State, order: seq<nat>)
    requires Distinct(first, calls) && Inv(first, calls, s, order) && Next(calls, s, i, fail, s')
    ensures Inv(first, calls, s', if s'.pcs[i] == Done then [i] + order else order)
  {
    hide Distinct, Linked, Lists, InRange;
    match s.pcs[i]
    case Before =>
      MoveKeeps(first, calls, s, i, s'.pcs[i], order);
    case Loaded(seen) =>
      StoreKeepsLinks(first, calls, s, i, seen, order);
      StoreKeepsStored(first, calls, s, i, seen);
      MoveKeeps(first, calls, s.(vars := s'.vars), i, s'.pcs[i], order);
    case Stored(seen) =>
      if s'.pcs[i] == Done {
        InstallLinks(first, calls, s, i, order);
        InstallLists(calls, s, i, order);
      } else {
        MoveKeeps(first, calls, s, i, s'.pcs[i], order);
      }
  }

  /** A call that moves on without finishing changes neither the chain nor its members. */
  lemma MoveKeeps(first: Fn, calls: seq<Call>, s: State, i: nat, pc: Pc, order: seq<nat>)
    requires i < |s.pcs| && InRange(calls, order) && Linked(first, calls, s, order)
    requires s.pcs[i] != Done && pc != Done
    ensures Linked(first, calls, s.(pcs := s.pcs[i := pc]), order)
    ensures Lists(s, order) ==> Lists(s.(pcs := s.pcs[i := pc]), order)
  {
  }

  lemma StoreKeepsStored(first: Fn, calls: seq<Call>, s: State, i: nat, v: Fn)
    requires Distinct(first, calls) && |s.pcs| == |calls| && i < |calls| && StoredOk(calls, s)
    ensures StoredOk(calls, s.(vars := s.vars[calls[i].variable := v], pcs := s.pcs[i := Stored(v)]))
  {
    forall j | 0 <= j < |calls| && j != i ensures calls[j].variable != calls[i].variable {
      assert j < i || i < j;
    }
  }

  lemma {:induction false} RunKeepsInv(first: Fn, calls: seq<Call>, states: seq<State>, moves: seq<Move>, n: nat)
    requires Distinct(first, calls) && Run(first, calls, states, moves) && n <= |moves|
    ensures Inv(first, calls, states[n], Installed(first, calls, states, moves, n))
  {
    hide Distinct, Next, Linked, Lists;
    if n == 0 {
      NothingInstalled(first, calls, states[0]);
    } else {
      RunKeepsInv(first, calls, states, moves, n - 1);
      NextKeepsInv(first, calls, states[n - 1], moves[n - 1].i, moves[n - 1].fail, states[n],
                   Installed(first, calls, states, moves, n - 1));
    }
  }

  lemma NothingInstalled(first: Fn, calls: seq<Call>, s: State)
    requires s.hook == first && |s.pcs| == |calls| && forall i :: 0 <= i < |calls| ==> s.pcs[i] == Before
    ensures Inv(first, calls, s, [])
  {
  }

  lemma SuccessorOf(first: Fn, calls: seq<Call>, s: State, i: nat)
    requires Distinct(first, calls) && i < |calls| && calls[i].variable in s.vars
    ensures Successor(calls, s, calls[i].fn) == s.vars[calls[i].variable]
  {
    var f := calls[i].fn;
    var j :| 0 <= j < |calls| && calls[j].fn == f && calls[j].variable in s.vars &&
      Successor(calls, s, f) == s.vars[calls[j].variable];
    assert i == j by {
      assert !(i < j) && !(j < i);
    }
  }

  lemma {:induction false} VisitedIsPlace(first: Fn, calls: seq<Call>, s: State, order: seq<nat>, k: nat)
    requires Distinct(first, calls) && Inv(first, calls, s, order) && k <= |order|
    ensures Visited(calls, s, k) == Place(first, calls, order, k)
  {
    if k > 0 {
      VisitedIsPlace(first, calls, s, order, k - 1);
      SuccessorOf(first, calls, s, order[k - 1]);
    }
  }

  /** After any number of steps of any interleaving, following the variables from the current hook
      visits the installed hooks, newest first, each exactly once, and then the initial function;
      the installed hooks are those of the finished calls. */
  lemma ChainIsComplete(first: Fn, calls: seq<Call>, states: seq<State>, moves: seq<Move>, n: nat)
    requires Distinct(first, calls) && Run(first, calls, states, moves) && n <= |moves|
    ensures var order := Installed(first, calls, states, moves, n);
            && InRange(calls, order) && Lists(states[n], order)
            && (forall k :: 0 <= k < |order| ==> Visited(calls, states[n], k) == calls[order[k]].fn)
            && Visited(calls, states[n], |order|) == first
  {
    var order := Installed(first, calls, states, moves, n);
    RunKeepsInv(first, calls, states, moves, n);
    forall k | 0 <= k <= |order| ensures Visited(calls, states[n], k) == Place(first, calls, order, k) {
      VisitedIsPlace(first, calls, states[n], order, k);
    }
  }

  /** One step of call i with no spurious failure. */
  function Alone(calls: seq<Call>, s: State, i: nat): State
    requires |s.pcs| == |calls| && i < |calls|
  {
    match s.pcs[i]
    case Before => s.(pcs := s.pcs[i := Loaded(s.hook)])
    case Loaded(seen) => s.(vars := s.vars[calls[i].variable := seen], pcs := s.pcs[i := Stored(seen)])
    case Stored(seen) =>
      if s.hook == seen then s.(hook := calls[i].fn, pcs := s.pcs[i := Done]) else s.(pcs := s.pcs[i := Loaded(s.hook)])
    case Done => s
  }

  /** How many steps a call still takes when nobody interferes. */
  function Rank(s: State, i: nat): nat
    requires i < |s.pcs|
  {
    match s.pcs[i]
    case Before => 3
    case Loaded(seen) => if seen == s.hook then 2 else 4
    case Stored(seen) => if seen == s.hook then 1 else 3
    case Done => 0
  }

  /** A call that runs alone, with no spurious failure, installs its hook: each of its steps brings it
      nearer, and it is never more than four steps away. The last one replaces the hook that the call
      has stored in its variable. */
  lemma AloneAdvances(calls: seq<Call>, s: State, i: nat)
    requires |s.pcs| == |calls| && i < |calls| && s.pcs[i] != Done
    ensures Next(calls, s, i, false, Alone(calls, s, i))
    ensures |Alone(calls, s, i).pcs| == |calls| && Rank(Alone(calls, s, i), i) < Rank(s, i) <= 4
    ensures Alone(calls, s, i).pcs[i] == Done ==>
              && Alone(calls, s, i).hook == calls[i].fn
              && s.pcs[i] == Stored(s.hook) && Alone(calls, s, i).vars == s.vars
  {
  }
}
