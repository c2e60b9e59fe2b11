/** The history of the OHCI driver's requests: which events there were, what they make of
    a request, and which descriptors were settled from a given list. */
module OhciLog {
  import opened PlaceLists
  import opened OhciPlaces
  import opened OhciState

  /** A request, and how often it was submitted and completed. */
  datatype Tally = Tally(q: Req, submitted: nat, completed: nat)

  /** What an event makes of request `r`. */
  function React(x: Tally, r: nat, ev: Event): Tally {
    match ev
    case Began(i, len) =>
      if i != r then x
      else Tally(x.q.(length := len, tdcount := 0, xferred := 0, inprogress := true), x.submitted + 1, x.completed)
    case Queued(i) => if i != r then x else x.(q := x.q.(tdcount := x.q.tdcount + 1))
    case Settled(_, _, i, got, cc) =>
      if i != r then x
      else
        var n := x.q.tdcount - 1;
        var q := x.q.(tdcount := n, xferred := x.q.xferred + got);
        if n != 0 then x.(q := q.(status := cc))
        else
          var code := if q.removing then CC_CANCELLED else cc;
          Tally(q.(status := code, inprogress := false), x.submitted, x.completed + 1)
  }

  function Replay(x: Tally, r: nat, evs: seq<Event>): Tally {
    if evs == [] then x else React(Replay(x, r, evs[..|evs| - 1]), r, evs[|evs| - 1])
  }

  lemma {:induction false} ReplayConcat(x: Tally, r: nat, a: seq<Event>, b: seq<Event>)
    ensures Replay(x, r, a + b) == Replay(Replay(x, r, a), r, b)
    decreases |b|
  {
    if b == [] {
      assert a + b == a;
    } else {
      var n := |b| - 1;
      ReplayConcat(x, r, a, b[..n]);
      assert (a + b)[..|a + b| - 1] == a + b[..n];
    }
  }

  lemma ReplayOne(x: Tally, r: nat, ev: Event)
    ensures Replay(x, r, [ev]) == React(x, r, ev)
  {
    assert Replay(x, r, [ev][..0]) == x;
  }

  ghost function TallyOf(s: St, r: nat): Tally
    requires r < |s.req| == |s.acct|
  {
    Tally(s.req[r], s.acct[r].submitted, s.acct[r].completed)
  }

  /** The events since `a`. */
  function Since(a: St, b: St): seq<Event>
    requires |a.log| <= |b.log|
  {
    b.log[|a.log|..]
  }

  /** The requests have become what the events since then make of them. */
  ghost predicate Grew(a: St, b: St) {
    && |a.req| == |b.req| == |a.acct| == |b.acct| && a.log <= b.log
    && forall r: nat | r < |a.req| :: Told(a, b, r)
  }

  ghost predicate Told(a: St, b: St, r: nat)
    requires r < |a.req| == |b.req| == |a.acct| == |b.acct| && |a.log| <= |b.log|
  {
    TallyOf(b, r) == Replay(TallyOf(a, r), r, Since(a, b))
  }

  /** No submission or completion in between. */
  predicate SameRuns(a: Acct, b: Acct) {
    b.submitted == a.submitted && b.completed == a.completed
  }

  lemma GrewSame(a: St, b: St)
    requires |a.req| == |a.acct| == |b.acct| && b.req == a.req && b.log == a.log
    requires forall r: nat | r < |a.acct| :: SameRuns(a.acct[r], b.acct[r])
    ensures Grew(a, b)
  {
    assert Since(a, b) == [];
  }

  lemma GrewTrans(a: St, b: St, c: St)
    requires Grew(a, b) && Grew(b, c)
    ensures Grew(a, c)
  {
    hide Replay, TallyOf;
    assert Since(a, c) == Since(a, b) + Since(b, c);
    forall r: nat | r < |a.req|
      ensures Told(a, c, r)
    {
      assert Told(a, b, r) && Told(b, c, r);
      ReplayConcat(TallyOf(a, r), r, Since(a, b), Since(b, c));
    }
  }

  lemma GrewBy(a: St, b: St, ev: Event)
    requires |a.req| == |b.req| == |a.acct| == |b.acct| && b.log == a.log + [ev]
    requires forall r: nat | r < |a.req| :: TallyOf(b, r) == React(TallyOf(a, r), r, ev)
    ensures Grew(a, b)
  {
    hide React, TallyOf;
    assert Since(a, b) == [ev];
    forall r: nat | r < |a.req|
      ensures Told(a, b, r)
    {
      ReplayOne(TallyOf(a, r), r, ev);
    }
  }

  // ----- What was settled from one list

  /** The settlements from list `p` among the events. */
  function From(evs: seq<Event>, p: Place): seq<Event> {
    if evs == [] then []
    else
      var n := |evs| - 1;
      From(evs[..n], p) + if evs[n].Settled? && evs[n].p == p then [evs[n]] else []
  }

  lemma {:induction false} FromConcat(a: seq<Event>, b: seq<Event>, p: Place)
    ensures From(a + b, p) == From(a, p) + From(b, p)
    decreases |b|
  {
    if b == [] {
      assert a + b == a;
    } else {
      var n := |b| - 1;
      FromConcat(a, b[..n], p);
      assert (a + b)[..|a + b| - 1] == a + b[..n];
    }
  }

  lemma {:induction false} FromNone(evs: seq<Event>, p: Place)
    requires forall i | 0 <= i < |evs| :: !(evs[i].Settled? && evs[i].p == p)
    ensures From(evs, p) == []
  {
    if evs != [] {
      FromNone(evs[..|evs| - 1], p);
    }
  }

  /** How descriptor `d` with contents `t` is settled from list `p`: as it was retired, or
      cancelled if it was still queued. */
  function Entry(t: Td, d: nat, p: Place): Event {
    if p.Wait? then Settled(d, p, t.ref, 0, CC_CANCELLED) else Settled(d, p, t.ref, Got(t), t.cc)
  }

  ghost function Entries(td: seq<Td>, l: seq<nat>, p: Place): (evs: seq<Event>)
    requires forall i | 0 <= i < |l| :: l[i] < |td|
    ensures |evs| == |l| && forall i | 0 <= i < |l| :: evs[i] == Entry(td[l[i]], l[i], p)
  {
    seq(|l|, i requires 0 <= i < |l| => Entry(td[l[i]], l[i], p))
  }

  lemma EntriesCons(td: seq<Td>, td': seq<Td>, l: seq<nat>, p: Place)
    requires l != [] && |td'| == |td| && forall i | 0 <= i < |l| :: l[i] < |td|
    requires forall i | 1 <= i < |l| :: td'[l[i]] == td[l[i]]
    ensures Entries(td, l, p) == [Entry(td[l[0]], l[0], p)] + Entries(td', l[1..], p)
  {
    hide Entry;
  }

  lemma EntriesSnoc(td: seq<Td>, l: seq<nat>, p: Place, n: nat)
    requires n < |l| && forall i | 0 <= i < |l| :: l[i] < |td|
    ensures Entries(td, l[..n + 1], p) == Entries(td, l[..n], p) + [Entry(td[l[n]], l[n], p)]
  {
    hide Entry;
  }
}
