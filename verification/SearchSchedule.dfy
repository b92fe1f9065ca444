/** The order in which `findhash` tries salts and sizes.

    alen starts at its largest value, so only the salt counter and blen ever change. The schedule
    depends on nothing but the verdicts of the tries so far: whether the coordinates were distinct,
    and so the mapping was tried and got stuck, or not. */
module SearchSchedule {
  import opened Bits

  const RETRY_INITKEY: nat := 2048
  const RETRY_PERFECT: nat := 4

  /** The variables of the search before a try. */
  datatype Search = Search(si: nat, blen: nat, badInitkey: nat, badPerfect: nat) {
    predicate Valid() { si < 0x1_0000_0000 && badInitkey < RETRY_INITKEY && badPerfect < RETRY_PERFECT }
  }

  function First(blen: nat): Search { Search(1, blen, 0, 0) }

  function NextSalt(si: nat): nat { (si + 1) % 0x1_0000_0000 }

  function Doubled(blen: nat, smax: nat): nat { if blen < smax then blen * 2 else blen }

  /** The variables after a failed try. */
  function Advance(smax: nat, s: Search, distinct: bool): Search {
    if !distinct then
      if s.badInitkey + 1 >= RETRY_INITKEY then Search(NextSalt(s.si), Doubled(s.blen, smax), 0, 0)
      else s.(si := NextSalt(s.si), badInitkey := s.badInitkey + 1)
    else
      if s.badPerfect + 1 >= RETRY_PERFECT then s.(blen := Doubled(s.blen, smax), badPerfect := 0)
      else s.(si := NextSalt(s.si), badPerfect := s.badPerfect + 1)
  }

  /** The try after which the search gives up. */
  predicate Over(smax: nat, s: Search, distinct: bool) {
    distinct && s.badPerfect + 1 >= RETRY_PERFECT && s.blen >= smax
  }

  /** The variables after tries with the given verdicts. */
  function After(smax: nat, s: Search, verdicts: seq<bool>): Search
    decreases |verdicts|
  {
    if verdicts == [] then s else After(smax, Advance(smax, s, verdicts[0]), verdicts[1..])
  }

  lemma {:induction false} AfterAppend(smax: nat, s: Search, v: seq<bool>, w: seq<bool>)
    ensures After(smax, s, v + w) == After(smax, After(smax, s, v), w)
    decreases |v|
  {
    if v == [] {
      assert v + w == w;
    } else {
      AfterAppend(smax, Advance(smax, s, v[0]), v[1..], w);
      assert (v + w)[1..] == v[1..] + w;
    }
  }

  lemma AfterSnoc(smax: nat, s: Search, v: seq<bool>, distinct: bool)
    ensures After(smax, s, v + [distinct]) == Advance(smax, After(smax, s, v), distinct)
  {
    hide Advance;
    AfterAppend(smax, s, v, [distinct]);
    assert [distinct][1..] == [];
  }

  lemma AdvanceValid(smax: nat, s: Search, distinct: bool)
    requires s.Valid()
    ensures Advance(smax, s, distinct).Valid() && s.blen <= Advance(smax, s, distinct).blen
  {
  }

  /** blen never shrinks, and the counters stay below their limits. */
  lemma {:induction false} AfterGrows(smax: nat, s: Search, v: seq<bool>)
    requires s.Valid()
    ensures After(smax, s, v).Valid() && s.blen <= After(smax, s, v).blen
    decreases |v|
  {
    hide Advance;
    if v != [] {
      AdvanceValid(smax, s, v[0]);
      AfterGrows(smax, Advance(smax, s, v[0]), v[1..]);
    }
  }

  /** No more than RETRY_INITKEY + RETRY_PERFECT - 1 tries go by before blen doubles. */
  lemma {:induction false} DoublesInTime(smax: nat, s: Search, v: seq<bool>)
    requires s.Valid() && s.blen < smax
    requires |v| >= RETRY_INITKEY - s.badInitkey + RETRY_PERFECT - s.badPerfect - 1
    ensures After(smax, s, v).blen >= 2 * s.blen
    decreases |v|
  {
    hide After;
    AfterOne(smax, s, v);
    var s' := Advance(smax, s, v[0]);
    if s'.blen == 2 * s.blen {
      AfterGrows(smax, s', v[1..]);
    } else {
      DoublesInTime(smax, s', v[1..]);
    }
  }

  lemma AfterOne(smax: nat, s: Search, v: seq<bool>)
    requires v != []
    ensures After(smax, s, v) == After(smax, Advance(smax, s, v[0]), v[1..])
  {
  }

  /** So d doublings take at most 2051 d tries: then every later try has the largest blen. */
  lemma {:induction false} ReachesLargest(smax: nat, s: Search, d: nat, v: seq<bool>)
    requires s.Valid() && s.blen > 0 && smax <= s.blen * Pow2(d)
    requires |v| >= d * (RETRY_INITKEY + RETRY_PERFECT - 1)
    ensures After(smax, s, v).blen >= smax
    decreases d
  {
    hide After, Advance;
    var n := RETRY_INITKEY + RETRY_PERFECT - 1;
    AfterGrows(smax, s, v);
    if s.blen < smax && d > 0 {
      Pow2Next(d - 1);
      assert v == v[..n] + v[n..];
      var s' := After(smax, s, v[..n]);
      AfterAppend(smax, s, v[..n], v[n..]);
      AfterGrows(smax, s, v[..n]);
      DoublesInTime(smax, s, v[..n]);
      LargerFits(s.blen, s'.blen, Pow2(d - 1));
      ReachesLargest(smax, s', d - 1, v[n..]);
    }
  }

  lemma LargerFits(a: nat, b: nat, p: nat)
    requires b >= 2 * a
    ensures b * p >= a * (2 * p)
  {
  }

  /** n salts later. */
  function SaltAfter(si: nat, n: nat): nat { (si + n) % 0x1_0000_0000 }

  lemma SaltSteps(si: nat, n: nat)
    ensures SaltAfter(NextSalt(si), n) == SaltAfter(si, n + 1)
    ensures si < 0x1_0000_0000 ==> SaltAfter(si, 0) == si
  {
  }

  /** The verdict, n times. */
  function Times(distinct: bool, n: nat): seq<bool> { seq(n, _ => distinct) }

  lemma TimesOne(distinct: bool, n: nat)
    requires n > 0
    ensures Times(distinct, n) != [] && Times(distinct, n)[0] == distinct
    ensures Times(distinct, n)[1..] == Times(distinct, n - 1)
  {
  }

  /** Without distinct coordinates: a new salt each time, a new blen at every RETRY_INITKEY-th. */
  lemma {:induction false} OnlyCollisions(smax: nat, s: Search, n: nat)
    requires s.Valid() && n <= RETRY_INITKEY - s.badInitkey
    ensures After(smax, s, Times(false, n)) ==
            if n < RETRY_INITKEY - s.badInitkey then s.(si := SaltAfter(s.si, n), badInitkey := s.badInitkey + n)
            else Search(SaltAfter(s.si, n), Doubled(s.blen, smax), 0, 0)
    decreases n
  {
    hide After, Times, SaltAfter, NextSalt;
    SaltSteps(s.si, 0);
    if n == 0 {
      AfterNone(smax, s, false);
    } else {
      SaltSteps(s.si, n - 1);
      NextSaltBound(s.si);
      TimesOne(false, n);
      AfterOne(smax, s, Times(false, n));
      var s' := Advance(smax, s, false);
      if s.badInitkey + 1 == RETRY_INITKEY {
        SaltSteps(s'.si, 0);
        AfterNone(smax, s', false);
      } else {
        OnlyCollisions(smax, s', n - 1);
      }
    }
  }

  lemma NextSaltBound(si: nat)
    ensures NextSalt(si) < 0x1_0000_0000
  {
  }

  lemma AfterNone(smax: nat, s: Search, distinct: bool)
    ensures After(smax, s, Times(distinct, 0)) == s
  {
  }

  /** With distinct coordinates but no mapping: a new salt each time, but at the RETRY_PERFECT-th the
      same salt again with a new blen. */
  lemma {:induction false} OnlyStuck(smax: nat, s: Search, n: nat)
    requires s.Valid() && n <= RETRY_PERFECT - s.badPerfect
    ensures After(smax, s, Times(true, n)) ==
            if n < RETRY_PERFECT - s.badPerfect then s.(si := SaltAfter(s.si, n), badPerfect := s.badPerfect + n)
            else Search(SaltAfter(s.si, n - 1), Doubled(s.blen, smax), s.badInitkey, 0)
    decreases n
  {
    hide After, Times, SaltAfter, NextSalt;
    SaltSteps(s.si, 0);
    if n == 0 {
      AfterNone(smax, s, true);
    } else {
      if n > 1 { SaltSteps(s.si, n - 2); }
      SaltSteps(s.si, n - 1);
      NextSaltBound(s.si);
      TimesOne(true, n);
      AfterOne(smax, s, Times(true, n));
      var s' := Advance(smax, s, true);
      if s.badPerfect + 1 == RETRY_PERFECT {
        AfterNone(smax, s', true);
      } else {
        OnlyStuck(smax, s', n - 1);
      }
    }
  }
}
