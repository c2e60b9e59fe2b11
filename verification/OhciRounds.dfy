/** What the driver's loops over descriptors settle: each descriptor of the list once, in
    order, whatever the calls in between do. */
module OhciRounds {
  import opened PlaceLists
  import opened OhciPlaces
  import opened OhciState
  import opened OhciSteps
  import opened OhciLog
  import opened OhciHw

  /** Nothing was settled from the lists of routines that were suspended in state `a` with
      the next free nesting depth `depth`, apart from list `p` unless that is `Held`. */
  ghost predicate Deep(a: St, b: St, depth: nat, p: Place) {
    a.log <= b.log && forall i | |a.log| <= i < |b.log| :: Deeper(a, b.log[i], depth, p)
  }

  predicate Deeper(a: St, ev: Event, depth: nat, p: Place) {
    ev.Settled? ==> (ev.p == p && p != Held) || (ev.p.Hand? && ev.p.depth >= depth) || (ev.p.Wait? && !Busy(a, ev.p))
  }

  ghost predicate BusyKept(a: St, b: St) {
    forall p: Place | Busy(a, p) :: Busy(b, p)
  }

  lemma DeepSame(a: St, b: St, depth: nat, p: Place)
    requires b.log == a.log
    ensures Deep(a, b, depth, p)
  {
  }

  lemma DeepTrans(a: St, b: St, c: St, depth: nat, p: Place)
    requires Deep(a, b, depth, p) && Deep(b, c, depth, p) && BusyKept(a, b)
    ensures Deep(a, c, depth, p)
  {
    forall i | |a.log| <= i < |c.log|
      ensures Deeper(a, c.log[i], depth, p)
    {
      if i < |b.log| {
        assert c.log[i] == b.log[i] && Deeper(a, b.log[i], depth, p);
      } else {
        assert Deeper(b, c.log[i], depth, p);
      }
    }
  }

  /** A call at a lower depth counts as one at `depth`. */
  lemma DeepWiden(a: St, b: St, c: St, lower: nat, depth: nat, p: Place, q: Place)
    requires Deep(b, c, lower, p) && a.log == b.log && lower >= depth && BusyKept(a, b)
    requires p == Held || p == q || (p.Hand? && p.depth >= depth) || (p.Wait? && !Busy(a, p))
    ensures Deep(a, c, depth, q)
  {
    forall i | |a.log| <= i < |c.log|
      ensures Deeper(a, c.log[i], depth, q)
    {
      assert Deeper(b, c.log[i], lower, p);
    }
  }

  lemma KeepsBusy(a: St, b: St)
    requires Keeps(a, b)
    ensures BusyKept(a, b)
  {
    hide Grew, StableBut;
  }

  /** The descriptors still on `p` are as they were. */
  ghost predicate Rest(a: St, b: St, p: Place) {
    |a.td| == |b.td| && forall i: nat | i < |L(b.lists, p)| :: SameAt(a, b, L(b.lists, p)[i])
  }

  predicate SameAt(a: St, b: St, d: nat) {
    d < |a.td| && d < |b.td| && b.td[d] == a.td[d]
  }

  lemma Busied(a: St, b: St, p: Place)
    requires Inv(a) && Keeps(a, b) && Busy(a, p)
    ensures Rest(a, b, p) && L(b.lists, p) == L(a.lists, p)
    ensures L(a.lists, p) != [] ==>
      L(a.lists, p)[0] < |a.td| == |b.td| && b.td[L(a.lists, p)[0]] == a.td[L(a.lists, p)[0]]
  {
    hide Inv, Grew;
    Lengths(a);
    forall i: nat | i < |L(a.lists, p)|
      ensures SameAt(a, b, L(a.lists, p)[i])
    {
      Places(a, p, i);
    }
  }

  lemma Places(s: St, p: Place, i: nat)
    requires Inv(s) && i < |L(s.lists, p)|
    ensures L(s.lists, p)[i] < |s.own| && s.own[L(s.lists, p)[i]] == p && |s.td| == |s.own|
  {
    hide FreeOk, DonesOk, EpsOk, TdsOk, ReqsOk;
    PartAt(s.lists, s.own, p, i);
  }

  /** One round: the first descriptor of `p` is settled. */
  ghost predicate Round(a: St, b: St, p: Place, depth: nat) {
    && L(a.lists, p) != [] && L(a.lists, p)[0] < |a.td| && Rest(a, b, p) && Deep(a, b, depth, p)
    && L(b.lists, p) == L(a.lists, p)[1..]
    && From(Since(a, b), p) == [Entry(a.td[L(a.lists, p)[0]], L(a.lists, p)[0], p)]
  }

  /** `n` rounds. */
  ghost predicate Rounds(a: St, b: St, p: Place, n: nat, depth: nat) {
    && n <= |L(a.lists, p)| && Rest(a, b, p) && Deep(a, b, depth, p) && L(b.lists, p) == L(a.lists, p)[n..]
    && (forall i: nat | i < |L(a.lists, p)| :: L(a.lists, p)[i] < |a.td|)
    && From(Since(a, b), p) == Entries(a.td, L(a.lists, p)[..n], p)
  }

  /** What happens to the descriptor between its settlement and its return settles
      nothing of the list. */
  lemma NoneOfList(a: St, b: St, p: Place, depth: nat)
    requires Deep(a, b, depth, Held) && (p.Hand? ==> p.depth < depth) && Busy(a, p)
    ensures From(Since(a, b), p) == []
  {
    var evs := Since(a, b);
    forall i | 0 <= i < |evs|
      ensures !(evs[i].Settled? && evs[i].p == p)
    {
      assert Deeper(a, b.log[|a.log| + i], depth, Held);
    }
    FromNone(evs, p);
  }

  lemma RoundLog(s0: St, s: St, a: St, b: St, f: St, p: Place, depth: nat, ev: Event)
    requires s.log == s0.log && a.log == s.log + [ev] && f.log == b.log && Deep(a, b, depth, Held)
    requires (p.Hand? ==> p.depth < depth) && Busy(a, p) && ev.Settled? && ev.p == p && BusyKept(s0, a)
    ensures Deep(s0, f, depth, p) && From(Since(s0, f), p) == [ev]
  {
    hide Deep;
    DeepLog(a, b, depth, Held);
    NoneOfList(a, b, p, depth);
    assert Since(s0, f) == [ev] + Since(a, b);
    FromConcat([ev], Since(a, b), p);
    assert From([ev], p) == [ev] by {
      assert [ev][..0] == [] && From([], p) == [];
    }
    RoundDeep(s0, a, b, p, depth, ev);
    DeepOf(s0, b, f, depth, p);
  }

  lemma DeepOf(a: St, b: St, f: St, depth: nat, p: Place)
    requires Deep(a, b, depth, p) && f.log == b.log
    ensures Deep(a, f, depth, p)
  {
  }

  lemma RoundDeep(s0: St, a: St, b: St, p: Place, depth: nat, ev: Event)
    requires a.log == s0.log + [ev] && Deep(a, b, depth, Held) && ev.Settled? && ev.p == p != Held && BusyKept(s0, a)
    ensures Deep(s0, b, depth, p)
  {
    forall i | |s0.log| <= i < |b.log|
      ensures Deeper(s0, b.log[i], depth, p)
    {
      if i == |s0.log| {
        assert b.log[i] == a.log[i] == ev;
      } else {
        assert Deeper(a, b.log[i], depth, Held);
      }
    }
  }

  lemma RoundRest(s0: St, s: St, a: St, b: St, f: St, p: Place)
    requires Inv(s0) && Inv(s) && Inv(a) && Inv(b) && Busy(s0, p) && L(s0.lists, p) != [] && Keeps(s0, s) && Keeps(a, b)
    requires a.td == s.td && a.ep == s.ep && L(a.lists, p) == L(s.lists, p)[1..]
    requires L(b.lists, Held) != [] && L(b.lists, Held)[0] == L(s.lists, p)[0] < |b.td| == |b.own| && f == FreeS(b)
    requires p != Held && p != Free
    ensures Rest(s0, f, p) && L(f.lists, p) == L(s0.lists, p)[1..]
  {
    hide Inv;
    Busied(s0, s, p);
    KeepsBusy(s0, s);
    Busied(a, b, p);
    hide Keeps;
    var d := L(s.lists, p)[0];
    forall i: nat | i < |L(f.lists, p)|
      ensures SameAt(s0, f, L(f.lists, p)[i])
    {
      var x := L(f.lists, p)[i];
      assert x == L(b.lists, p)[i] && x == L(s.lists, p)[i + 1];
      assert SameAt(a, b, x) && SameAt(s0, s, x);
      Places(b, p, i);
      Places(b, Held, 0);
    }
  }

  lemma RoundsNone(a: St, p: Place, depth: nat)
    requires Inv(a)
    ensures Rounds(a, a, p, 0, depth)
  {
    hide Inv;
    Lengths(a);
    assert Since(a, a) == [] && L(a.lists, p)[0..] == L(a.lists, p);
    forall i: nat | i < |L(a.lists, p)|
      ensures L(a.lists, p)[i] < |a.td|
    {
      Places(a, p, i);
    }
  }

  lemma RoundsMore(a: St, b: St, c: St, p: Place, n: nat, depth: nat)
    requires Rounds(a, b, p, n, depth) && Round(b, c, p, depth) && BusyKept(a, b)
    ensures Rounds(a, c, p, n + 1, depth)
  {
    hide Deep, From, Entries, Entry;
    DeepTrans(a, b, c, depth, p);
    DeepLog(a, b, depth, p);
    DeepLog(b, c, depth, p);
    var l := L(a.lists, p);
    assert L(b.lists, p)[0] == l[n] && l[n..][1..] == l[n + 1..];
    assert SameAt(a, b, L(b.lists, p)[0]);
    FromSince(a, b, c, p);
    EntriesSnoc(a.td, l, p, n);
    forall i: nat | i < |L(c.lists, p)|
      ensures SameAt(a, c, L(c.lists, p)[i])
    {
      assert L(c.lists, p)[i] == L(b.lists, p)[i + 1];
      assert SameAt(a, b, L(b.lists, p)[i + 1]) && SameAt(b, c, L(c.lists, p)[i]);
    }
  }

  lemma FromSince(a: St, b: St, c: St, p: Place)
    requires a.log <= b.log <= c.log
    ensures From(Since(a, c), p) == From(Since(a, b), p) + From(Since(b, c), p)
  {
    assert Since(a, c) == Since(a, b) + Since(b, c);
    FromConcat(Since(a, b), Since(b, c), p);
  }

  lemma DeepLog(a: St, b: St, depth: nat, p: Place)
    requires Deep(a, b, depth, p)
    ensures a.log <= b.log
  {
  }
}
