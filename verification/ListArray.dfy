/** `list_array_tt`: method, property and protocol lists that categories extend. */
module ListArray {
  /** The elements of the lists, in order. */
  function Flat<E>(lists: seq<seq<E>>): seq<E> {
    if lists == [] then [] else lists[0] + Flat(lists[1..])
  }

  lemma {:induction false} FlatAppend<E>(a: seq<seq<E>>, b: seq<seq<E>>)
    ensures Flat(a + b) == Flat(a) + Flat(b)
  {
    hide Flat;
    FlatNone<E>();
    if a == [] {
      assert a + b == b && [] + Flat(b) == Flat(b);
    } else {
      var head, tail := a[0], a[1..];
      FlatAppend(tail, b);
      FlatCons(head, tail);
      FlatCons(head, tail + b);
      assert a == [head] + tail && a + b == [head] + (tail + b);
      assert head + (Flat(tail) + Flat(b)) == (head + Flat(tail)) + Flat(b);
    }
  }

  lemma FlatNone<E>()
    ensures Flat<E>([]) == []
  {
  }

  lemma FlatCons<E>(l: seq<E>, rest: seq<seq<E>>)
    ensures Flat([l] + rest) == l + Flat(rest)
  {
    assert ([l] + rest)[1..] == rest;
  }

  predicate AllNonempty<E>(lists: seq<seq<E>>) { forall i :: 0 <= i < |lists| ==> |lists[i]| > 0 }

  /** The lists after attaching the given batches one after the other to an empty value. */
  function Attached<E>(batches: seq<seq<seq<E>>>): seq<seq<E>> {
    if batches == [] then [] else batches[|batches| - 1] + Attached(batches[..|batches| - 1])
  }

  /** Later batches come first: what batch j holds precedes everything attached before it. */
  lemma {:induction false} LatestFirst<E>(batches: seq<seq<seq<E>>>, j: nat)
    requires j <= |batches|
    ensures |Attached(batches[..j])| <= |Attached(batches)|
    ensures Attached(batches)[|Attached(batches)| - |Attached(batches[..j])|..] == Attached(batches[..j])
  {
    var n := |batches| - 1;
    if j == |batches| {
      assert batches[..j] == batches;
    } else {
      LatestFirst(batches[..n], j);
      assert batches[..n][..j] == batches[..j];
    }
  }

  /** The union: no list, a pointer to one list, or a pointer to an array of lists. */
  datatype Rep<!E> = NoList | OneList(list: seq<E>) | ManyLists(lists: array<seq<E>>)

  class ListArrayTT<E> {
    var rep: Rep<E>

    /** The lists from beginLists() to endLists(). */
    ghost function Lists(): seq<seq<E>>
      reads this, Storage()
    {
      match rep
      case NoList => []
      case OneList(l) => [l]
      case ManyLists(a) => a[..]
    }

    ghost function Storage(): set<object>
      reads this
    {
      if rep.ManyLists? then {rep.lists} else {}
    }

    constructor ()
      ensures Lists() == [] && Storage() == {}
    {
      rep := NoList;
    }

    /** Put the added lists in front. */
    method AttachLists(added: array<seq<E>>)
      requires |Lists()| + added.Length < 0x8000_0000
      modifies this
      ensures Lists() == old(added[..]) + old(Lists())
      ensures fresh(Storage() - old(Storage()))
      ensures added !in old(Storage()) ==> added !in Storage()
    {
      ghost var before := Lists();
      if added.Length == 0 {
        return;
      }
      match rep
      case ManyLists(a) =>
        var oldCount := a.Length;
        var newArray := new seq<E>[oldCount + added.Length];
        CopyBehind(newArray, a, added.Length);
        CopyInFront(newArray, added);
        rep := ManyLists(newArray);
        assert newArray[..] == newArray[..added.Length] + newArray[added.Length..];
      case NoList =>
        if added.Length == 1 {
          rep := OneList(added[0]);
          assert added[..] == [added[0]];
        } else {
          var newArray := new seq<E>[added.Length];
          CopyInFront(newArray, added);
          rep := ManyLists(newArray);
        }
      case OneList(l) =>
        var newArray := new seq<E>[1 + added.Length];
        newArray[added.Length] := l;
        CopyInFront(newArray, added);
        rep := ManyLists(newArray);
        assert newArray[..] == newArray[..added.Length] + newArray[added.Length..];
    }

    method CopyBehind(newArray: array<seq<E>>, a: array<seq<E>>, addedCount: nat)
      requires newArray != a && newArray.Length == a.Length + addedCount
      modifies newArray
      ensures newArray[addedCount..] == a[..]
    {
      var i := a.Length - 1;
      while i >= 0
        invariant -1 <= i < a.Length
        invariant forall k :: i < k < a.Length ==> newArray[k + addedCount] == a[k]
      {
        newArray[i + addedCount] := a[i];
        i := i - 1;
      }
      forall k | 0 <= k < a.Length ensures newArray[addedCount..][k] == a[..][k] {
        assert newArray[k + addedCount] == a[k];
      }
    }

    method CopyInFront(a: array<seq<E>>, added: array<seq<E>>)
      requires a != added && added.Length <= a.Length
      modifies a
      ensures a[..added.Length] == added[..]
      ensures a[added.Length..] == old(a[added.Length..])
    {
      for i := 0 to added.Length
        invariant a[..i] == added[..i]
        invariant a[added.Length..] == old(a[added.Length..])
        invariant added[..] == old(added[..])
      {
        a[i] := added[i];
      }
    }

    /** The number of elements, in 32-bit arithmetic. */
    method Count() returns (result: nat)
      ensures result == |Flat(Lists())| % 0x1_0000_0000
    {
      result := 0;
      match rep
      case NoList =>
      case OneList(l) =>
        result := (result + |l|) % 0x1_0000_0000;
        assert Lists()[1..] == [];
        assert Flat(Lists()) == l;
      case ManyLists(a) =>
        for i := 0 to a.Length
          invariant result == |Flat(a[..i])| % 0x1_0000_0000
        {
          FlatSnoc(a[..i], a[i]);
          assert a[..i + 1] == a[..i] + [a[i]];
          result := (result + |a[i]|) % 0x1_0000_0000;
        }
        assert a[..a.Length] == a[..];
    }

    /** A copy that shares no storage. */
    method DuplicateInto(other: ListArrayTT<E>)
      requires other != this
      modifies other
      ensures other.Lists() == Lists() && Lists() == old(Lists())
      ensures fresh(other.Storage())
    {
      match rep
      case NoList => other.rep := NoList;
      case OneList(l) => other.rep := OneList(l);
      case ManyLists(a) =>
        var b := new seq<E>[a.Length];
        for i := 0 to a.Length
          invariant b[..i] == a[..i]
          invariant a[..] == old(a[..])
        {
          b[i] := a[i];
        }
        other.rep := ManyLists(b);
        assert b[..] == b[..a.Length] == a[..a.Length] == a[..];
    }

    /** A loop from begin() to end(). */
    method Traverse() returns (r: Traversal<E>)
      ensures r == Traversed(Lists())
    {
      var lists := [];
      match rep {
        case NoList =>
        case OneList(l) => lists := [l];
        case ManyLists(a) => lists := a[..];
      }
      r := TraverseLists(lists);
    }
  }

  /** What becomes of a loop over all elements: it sees them all, or it dereferences the end of a
      list that has none. */
  datatype Traversal<E> = Complete(elements: seq<E>) | PastEnd(list: nat)

  /** The concatenation if no list is empty, else the number of the first empty list. */
  function Traversed<E>(lists: seq<seq<E>>): (r: Traversal<E>)
    ensures r.Complete? <==> AllNonempty(lists)
    ensures r.PastEnd? ==> r.list < |lists| && |lists[r.list]| == 0 && AllNonempty(lists[..r.list])
  {
    var i := FirstEmpty(lists);
    if i == |lists| then Complete(Flat(lists)) else PastEnd(i)
  }

  function FirstEmpty<E>(lists: seq<seq<E>>): (i: nat)
    ensures i <= |lists| && AllNonempty(lists[..i]) && (i < |lists| ==> |lists[i]| == 0)
  {
    if lists == [] then 0 else
      var n := |lists| - 1;
      var i := FirstEmpty(lists[..n]);
      assert lists[..n][..i] == lists[..i];
      if i < n || |lists[n]| == 0 then i else |lists|
  }

  method TraverseLists<E>(lists: seq<seq<E>>) returns (r: Traversal<E>)
    ensures r == Traversed(lists)
  {
    hide Flat, FirstEmpty;
    var it := new Cursor(lists);
    var out := [];
    while it.at != |it.lists|
      invariant it.lists == lists && fresh(it)
      invariant it.Settled() && out + it.Remaining() == Flat(lists)
      invariant forall i :: 0 <= i < it.at ==> |lists[i]| > 0
      decreases |lists| - it.at, it.Left()
    {
      if it.m == |lists[it.at]| {
        return PastEnd(it.at);
      }
      var x := lists[it.at][it.m];
      TakeOne(out, it.Remaining(), x);
      out := out + [x];
      it.Advance();
    }
    assert it.Remaining() == [] && out + [] == out;
    r := Complete(out);
  }

  /** Attaching batches one after the other, from the empty value: later batches come first, a loop
      over the elements sees their concatenation, and count() is its length. */
  method AttachEach<E>(batches: seq<seq<seq<E>>>) returns (l: ListArrayTT<E>, r: Traversal<E>, count: nat)
    requires |Attached(batches)| < 0x8000_0000
    ensures l.Lists() == Attached(batches)
    ensures r == Traversed(Attached(batches))
    ensures AllNonempty(Attached(batches)) ==> r == Complete(Flat(Attached(batches)))
    ensures count == |Flat(Attached(batches))| % 0x1_0000_0000
  {
    hide Flat, Attached;
    assert Attached(batches[..0]) == [] by { AttachedNone<E>(); }
    l := new ListArrayTT<E>();
    for n := 0 to |batches|
      invariant fresh(l) && fresh(l.Storage()) && l.Lists() == Attached(batches[..n])
    {
      LatestFirst(batches, n + 1);
      AttachedSnoc(batches, n);
      var added := new seq<E>[|batches[n]|](i requires 0 <= i < |batches[n]| => batches[n][i]);
      assert added[..] == batches[n];
      l.AttachLists(added);
    }
    assert batches[..|batches|] == batches;
    r := l.Traverse();
    count := l.Count();
  }

  lemma AttachedNone<E>()
    ensures Attached<E>([]) == []
  {
  }

  lemma AttachedSnoc<E>(batches: seq<seq<seq<E>>>, n: nat)
    requires n < |batches|
    ensures Attached(batches[..n + 1]) == batches[n] + Attached(batches[..n])
  {
    assert batches[..n + 1][..n] == batches[..n];
  }

  lemma TakeOne<E>(out: seq<E>, todo: seq<E>, x: E)
    requires |todo| > 0 && todo[0] == x
    ensures out + todo == (out + [x]) + todo[1..]
  {
  }

  lemma FlatSnoc<E>(a: seq<seq<E>>, l: seq<E>)
    ensures Flat(a + [l]) == Flat(a) + l
  {
    FlatAppend(a, [l]);
    assert [l][1..] == [];
    assert Flat([l]) == l;
  }

  /** The elements from element m of list number at on. */
  function Rest<E>(lists: seq<seq<E>>, at: nat, m: nat): seq<E>
    requires at <= |lists| && (at < |lists| ==> m <= |lists[at]|)
  {
    if at == |lists| then [] else lists[at][m..] + Flat(lists[at + 1..])
  }

  lemma RestStep<E>(lists: seq<seq<E>>, at: nat, m: nat)
    requires at < |lists| && m < |lists[at]|
    ensures |Rest(lists, at, m)| > 0 && Rest(lists, at, m)[0] == lists[at][m]
    ensures Rest(lists, at, m)[1..] == Rest(lists, at, m + 1)
    ensures m + 1 == |lists[at]| ==> Rest(lists, at, m + 1) == Rest(lists, at + 1, 0)
  {
    hide Flat;
    var head, rest := lists[at][m..], Flat(lists[at + 1..]);
    assert head == [lists[at][m]] + lists[at][m + 1..];
    assert (head + rest)[1..] == head[1..] + rest;
    if m + 1 == |lists[at]| {
      RestOfNext(lists, at + 1);
    }
  }

  lemma RestOfNext<E>(lists: seq<seq<E>>, at: nat)
    requires at <= |lists|
    ensures Rest(lists, at, 0) == Flat(lists[at..])
  {
    if at < |lists| {
      assert lists[at..][0] == lists[at] && lists[at..][1..] == lists[at + 1..];
      assert lists[at][0..] == lists[at];
    }
  }

  /** The cursor pair `lists`, `m`: list number `at`, element number `m`. */
  class Cursor<E> {
    const lists: seq<seq<E>>
    var at: nat
    var m: nat

    ghost predicate InRange()
      reads this
    {
      at <= |lists| && (at < |lists| ==> m <= |lists[at]|)
    }

    /** Past the first element of its list the cursor is never at that list's end. */
    ghost predicate Settled()
      reads this
    {
      InRange() && (at < |lists| && m > 0 ==> m < |lists[at]|)
    }

    /** The elements still to come. */
    ghost function Remaining(): seq<E>
      requires InRange()
      reads this
    {
      Rest(lists, at, m)
    }

    ghost function Left(): nat
      requires InRange()
      reads this
    {
      if at == |lists| then 0 else |lists[at]| - m
    }

    constructor (lists: seq<seq<E>>)
      ensures this.lists == lists && at == 0 && m == 0 && Settled() && Remaining() == Flat(lists)
    {
      this.lists, at, m := lists, 0, 0;
    }

    /** operator++: the next element, or the first place of the next list. */
    method Advance()
      requires Settled() && at < |lists| && m < |lists[at]|
      modifies this
      ensures Settled() && Remaining() == old(Remaining())[1..]
      ensures (at == old(at) && Left() < old(Left())) || (at == old(at) + 1 && m == 0)
    {
      hide Flat;
      RestStep(lists, at, m);
      m := m + 1;
      if m == |lists[at]| {
        at, m := at + 1, 0;
      }
    }
  }
}
