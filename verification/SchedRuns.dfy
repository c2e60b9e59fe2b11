/** How long a thread waits on the real scheduler: runs in which all processors act, but
    nothing arrives on, leaves or wakes up on the one looked at. */
module SchedRuns {
  import opened PlaceLists
  import opened SchedPolicy
  import opened SchedState
  import opened SchedSteps
  import opened Sched

  /** Nothing waits to be taken over or to be freed on processor `c`. */
  ghost predicate Settled(s: St, c: nat) {
    var r := L(s.lists, Run(c));
    c < |s.cpu| && L(s.lists, Swap(c)) == [] && forall i: nat | i < |r| :: r[i] < |s.th| && !Dead(s.th[r[i]])
  }

  /** From the state `s` on, the call leaves the threads of processor `c` alone or is a
      decision of that processor at a time when none of its sleepers is due. */
  ghost predicate Calm(s: St, act: Act, c: nat)
    requires Settled(s, c)
  {
    var r := L(s.lists, Run(c));
    match act
    case New(e, _) => e != c
    case Move(d, to) => to != c && d !in r
    case Change(d, _, _, _, _, _, _) => d !in r
    case Tick(e, now) => e == c ==> forall i: nat | i < |r| :: s.th[r[i]].sleep == 0 || s.th[r[i]].sleep - now >= 0
  }

  /** Processor `c` has the same threads in the same status. */
  ghost predicate Like(s: St, n: St, c: nat) {
    var r := L(s.lists, Run(c));
    && |n.th| == |s.th| && |n.cpu| == |s.cpu| && L(n.lists, Run(c)) == r && L(n.lists, Swap(c)) == []
    && forall i: nat | i < |r| :: r[i] < |s.th| && Unchanged(s.th[r[i]], n.th[r[i]])
  }

  predicate Unchanged(a: Thread, b: Thread) {
    SameStatus(a, b) && b.sleep == a.sleep
  }

  ghost function ReadyList(s: St, c: nat): seq<nat>
    requires InPool(L(s.lists, Run(c)), |s.th|)
  {
    Rev(ReadyOf(s.th, L(s.lists, Run(c))))
  }

  // ----- One call

  lemma {:induction false} SameReady(a: seq<Thread>, b: seq<Thread>, r: seq<nat>)
    requires |a| == |b| && forall i: nat | i < |r| :: r[i] < |a| && Unchanged(a[r[i]], b[r[i]])
    ensures ReadyOf(b, r) == ReadyOf(a, r)
  {
    if r != [] {
      SameReady(a, b, r[..|r| - 1]);
    }
  }

  /** Every thread on the ready list is on the run list. */
  lemma ListInRun(th: seq<Thread>, r: seq<nat>, i: nat)
    requires InPool(r, |th|) && i < |Rev(ReadyOf(th, r))|
    ensures Rev(ReadyOf(th, r))[i] in r && Rev(ReadyOf(th, r))[i] < |th|
  {
    hide Rev, ReadyOf;
    var x := Rev(ReadyOf(th, r))[i];
    RevMember(ReadyOf(th, r), x);
    ReadyMember(th, r, x);
  }

  lemma SameRanksOn(th: seq<Thread>, r: seq<nat>, a: seq<Thread>, b: seq<Thread>)
    requires InPool(r, |th|) && |th| == |a| == |b| && forall i: nat | i < |r| :: RankOf(b[r[i]]) == RankOf(a[r[i]])
    ensures InPool(Rev(ReadyOf(th, r)), |th|) && Ranks(b, Rev(ReadyOf(th, r))) == Ranks(a, Rev(ReadyOf(th, r)))
  {
    hide Rev, ReadyOf;
    var l := Rev(ReadyOf(th, r));
    ListInPool(th, r);
    forall i: nat | i < |l|
      ensures RankOf(b[l[i]]) == RankOf(a[l[i]])
    {
      ListInRun(th, r, i);
      var j :| 0 <= j < |r| && r[j] == l[i];
    }
  }

  /** Threads of the processor that a call does not touch. */
  ghost predicate Apart(a: St, b: St, c: nat) {
    var r := L(a.lists, Run(c));
    && |b.th| == |a.th| && |b.cpu| == |a.cpu| && L(b.lists, Run(c)) == r && L(b.lists, Swap(c)) == L(a.lists, Swap(c))
    && forall i: nat | i < |r| ::
      r[i] < |a.th| && Unchanged(a.th[r[i]], b.th[r[i]]) && RankOf(b.th[r[i]]) == RankOf(a.th[r[i]])
  }

  lemma ElseTick(a: St, b: St, e: nat, now: int, w: int, s: St, c: nat)
    requires Inv(a) && Inv(b) && Settled(s, c) && Like(s, a, c) && Ticked(a, b, e, now, w) && e != c
    ensures Apart(a, b, c)
  {
    hide Inv, Rev, ReadyOf, Decision, NextRun, Steady;
    var r, re := L(a.lists, Run(c)), L(b.lists, Run(e));
    forall i: nat | i < |r|
      ensures r[i] < |a.th| && Unchanged(a.th[r[i]], b.th[r[i]]) && RankOf(b.th[r[i]]) == RankOf(a.th[r[i]])
    {
      var d := r[i];
      OnOneList(a, d, Run(c));
      OnOneList(a, d, Run(e));
      OnOneList(b, d, Run(c));
      OnOneList(b, d, Run(e));
      ReadyMember(b.th, re, d);
      RevMember(ReadyOf(b.th, re), d);
      StillThere(s.th[d], a.th[d], b.th[d], now);
    }
  }

  lemma StillThere(s: Thread, a: Thread, b: Thread, now: int)
    requires !Dead(s) && Unchanged(s, a) && Steady(a, b, now, false)
    ensures Unchanged(a, b)
  {
  }

  lemma ElseNew(a: St, b: St, e: nat, suspended: bool, d: int, c: nat)
    requires Inv(a) && Inv(b) && c < |a.cpu| && e < |a.cpu| && Created(a, b, e, suspended, d) && e != c
    ensures Apart(a, b, c)
  {
    hide Inv;
    RunInPool(a, c);
    var r := L(a.lists, Run(c));
    if d != NIL {
      OnOneList(b, d, Run(e));
      OnOneList(b, d, Run(c));
    }
  }

  lemma ElseMove(a: St, b: St, d: nat, to: nat, c: nat)
    requires Inv(a) && c < |a.cpu| && d < |a.th| == |a.own| && d !in L(a.lists, Run(c)) && to != c && a.own[d].Run?
    requires HandedOver(a, b, d, to)
    ensures Apart(a, b, c)
  {
    hide Inv;
    RunInPool(a, c);
    OnOneList(a, d, Run(c));
  }

  /** A call that is not a decision of the processor leaves it alone. */
  lemma Elsewhere(s: St, a: St, act: Act, b: St, res: int, c: nat)
    requires Inv(a) && Inv(b) && Settled(s, c) && Like(s, a, c) && Calm(s, act, c) && Stepped(a, act, b, res)
    requires !(act.Tick? && act.c == c)
    ensures Apart(a, b, c)
  {
    hide Inv, Ticked, Created, HandedOver;
    RunInPool(a, c);
    if b != a {
      match act
      case New(e, suspended) => ElseNew(a, b, e, suspended, res, c);
      case Move(d, to) => ElseMove(a, b, d, to, c);
      case Change(d, _, _, _, _, _, _) =>
      case Tick(e, now) => ElseTick(a, b, e, now, res, s, c);
    }
  }

  /** A decision of the processor itself. */
  lemma OwnTick(s: St, a: St, now: int, b: St, w: int, c: nat)
    requires Settled(s, c) && Like(s, a, c) && Calm(s, Tick(c, now), c) && Ticked(a, b, c, now, w)
    ensures Like(s, b, c) && InPool(L(s.lists, Run(c)), |s.th|) && Decision(a.th, b.th, ReadyList(s, c), w)
  {
    hide Rev, ReadyOf, Decision, Steady, OthersRank, Kept, Alive;
    var r := L(s.lists, Run(c));
    forall i: nat | i < |r|
      ensures !Dead(a.th[r[i]]) && Unchanged(s.th[r[i]], b.th[r[i]])
    {
      NotDue(s.th[r[i]], a.th[r[i]], b.th[r[i]], now);
    }
    RevNil();
    KeptAll(a.th, r);
    assert [] + r == r;
    SameReady(s.th, b.th, r);
  }

  lemma KeptAll(th: seq<Thread>, r: seq<nat>)
    requires r != [] && forall i: nat | i < |r| :: r[i] < |th| && !Dead(th[r[i]])
    ensures Kept(th, r) == r
  {
    NoneDead(th, r);
  }

  lemma NotDue(s: Thread, a: Thread, b: Thread, now: int)
    requires !Dead(s) && Unchanged(s, a) && (s.sleep == 0 || s.sleep - now >= 0) && Steady(a, b, now, true)
    ensures !Dead(a) && Unchanged(s, b)
  {
  }

  lemma StaysLike(s: St, a: St, b: St, c: nat)
    requires Like(s, a, c) && Apart(a, b, c)
    ensures Like(s, b, c) && InPool(L(s.lists, Run(c)), |s.th|)
    ensures InPool(ReadyList(s, c), |s.th|) && Ranks(b.th, ReadyList(s, c)) == Ranks(a.th, ReadyList(s, c))
  {
    hide Rev, ReadyOf, Ranks;
    SameRanksOn(s.th, L(s.lists, Run(c)), a.th, b.th);
  }

  // ----- Whole runs

  /** Decisions of processor `c`. */
  function Ticks(acts: seq<Act>, c: nat): nat {
    if acts == [] then 0
    else
      var n := |acts| - 1;
      Ticks(acts[..n], c) + if acts[n].Tick? && acts[n].c == c then 1 else 0
  }

  lemma TicksNext(acts: seq<Act>, c: nat, n: nat)
    requires n < |acts|
    ensures Ticks(acts[..n + 1], c) == Ticks(acts[..n], c) + if acts[n].Tick? && acts[n].c == c then 1 else 0
  {
    assert acts[..n + 1][..n] == acts[..n];
  }

  ghost predicate Window(trace: seq<St>, acts: seq<Act>, results: seq<int>, c: nat) {
    IsTrace(trace, acts, results) && Settled(trace[0], c) && forall i: nat | i < |acts| :: Calm(trace[0], acts[i], c)
  }

  lemma ReadyNonEmpty(s: St, c: nat)
    requires Inv(s) && c < |s.cpu|
    ensures InPool(L(s.lists, Run(c)), |s.th|) && InPool(ReadyList(s, c), |s.th|) && ReadyList(s, c) != []
  {
    hide Inv, Rev, ReadyOf;
    RunInPool(s, c);
    ListInPool(s.th, L(s.lists, Run(c)));
    IdleReady(s, c, ReadyList(s, c));
  }

  /** In a window the ready list stays, and its ranks are those after as many decisions
      of the policy as the processor made. */
  lemma {:induction false} RanksAfter(trace: seq<St>, acts: seq<Act>, results: seq<int>, c: nat, n: nat)
    requires Window(trace, acts, results, c) && n <= |acts|
    ensures Like(trace[0], trace[n], c) && InPool(L(trace[0].lists, Run(c)), |trace[0].th|)
    ensures var s := trace[0]; var l := ReadyList(s, c);
      && l != [] && InPool(l, |s.th|) && |trace[n].th| == |s.th|
      && Ranks(trace[n].th, l) == After(Ranks(s.th, l), Ticks(acts[..n], c))
    ensures n < |acts| && acts[n].Tick? && acts[n].c == c ==>
      var l := ReadyList(trace[0], c); results[n] == l[Best(After(Ranks(trace[0].th, l), Ticks(acts[..n], c)))]
    decreases n
  {
    hide Inv, Rev, ReadyOf, Best, Ranks, Decide, After, Calm, Stepped, Like, Apart, Settled;
    var s := trace[0];
    SettledCpu(s, c);
    ReadyNonEmpty(s, c);
    var l := ReadyList(s, c);
    if n == 0 {
      LikeSelf(s, c);
      AfterZero(Ranks(s.th, l));
      assert acts[..0] == [];
    } else {
      RanksAfter(trace, acts, results, c, n - 1);
      TicksNext(acts, c, n - 1);
      OneCall(s, trace[n - 1], acts[n - 1], trace[n], results[n - 1], c);
      AfterNext(Ranks(s.th, l), Ticks(acts[..n - 1], c));
    }
    if n < |acts| && acts[n].Tick? && acts[n].c == c {
      OneCall(s, trace[n], acts[n], trace[n + 1], results[n], c);
    }
  }

  lemma SettledCpu(s: St, c: nat)
    requires Settled(s, c)
    ensures c < |s.cpu|
  {
  }

  lemma LikeSelf(s: St, c: nat)
    requires Settled(s, c)
    ensures Like(s, s, c)
  {
  }

  lemma AfterZero(r: seq<Rank>)
    requires r != []
    ensures After(r, 0) == r
  {
  }

  lemma OneCall(s: St, a: St, act: Act, b: St, res: int, c: nat)
    requires Inv(a) && Inv(b) && Settled(s, c) && Like(s, a, c) && Calm(s, act, c) && Stepped(a, act, b, res)
    ensures Like(s, b, c) && InPool(L(s.lists, Run(c)), |s.th|) && |a.th| == |b.th| == |s.th|
    ensures InPool(ReadyList(s, c), |s.th|)
    ensures var l := ReadyList(s, c);
      if act.Tick? && act.c == c
      then l != [] && res == l[Best(Ranks(a.th, l))] && Ranks(b.th, l) == Decide(Ranks(a.th, l))
      else Ranks(b.th, l) == Ranks(a.th, l)
  {
    hide Inv, Rev, ReadyOf, Best, Ranks, Decide, Ticked, Created, HandedOver, Apart;
    if act.Tick? && act.c == c {
      OwnTick(s, a, act.now, b, res, c);
      ListInPool(s.th, L(s.lists, Run(c)));
    } else {
      Elsewhere(s, a, act, b, res, c);
      StaysLike(s, a, b, c);
    }
  }

  lemma {:induction false} NthTick(acts: seq<Act>, c: nat, j: nat) returns (i: nat)
    requires j < Ticks(acts, c)
    ensures i < |acts| && acts[i].Tick? && acts[i].c == c && Ticks(acts[..i], c) == j
  {
    var n := |acts| - 1;
    if j < Ticks(acts[..n], c) {
      i := NthTick(acts[..n], c, j);
      assert acts[..n][..i] == acts[..i];
    } else {
      i := n;
    }
  }

  /** `x` is one of at most `b + 1` threads of top priority, and there are enough
      decisions. */
  ghost predicate InTime(r: seq<Rank>, p: nat, b: nat, x: nat, n: nat) {
    Fair(r, p, b) && x in Tops(r, p, b) && |Tops(r, p, b)| <= b + 1 && 2 * b + 1 <= n
  }

  /** Of few enough equal threads each wins within `2 * b + 1` decisions of its
      processor, whatever the other processors do meanwhile. */
  lemma BoundedWaiting(trace: seq<St>, acts: seq<Act>, results: seq<int>, c: nat, p: nat, b: nat, x: nat)
    returns (i: nat)
    requires Window(trace, acts, results, c) && InPool(L(trace[0].lists, Run(c)), |trace[0].th|)
    requires InPool(ReadyList(trace[0], c), |trace[0].th|)
    requires InTime(Ranks(trace[0].th, ReadyList(trace[0], c)), p, b, x, Ticks(acts, c))
    ensures i < |acts| && acts[i].Tick? && acts[i].c == c && x < |ReadyList(trace[0], c)|
    ensures results[i] == ReadyList(trace[0], c)[x]
  {
    hide Inv, Rev, ReadyOf, Best, Decide, After, Calm, Stepped, Like, Settled;
    var k0 := Ranks(trace[0].th, ReadyList(trace[0], c));
    BoundedWait(k0, p, b, x);
    var j: nat :| j <= 2 * b && Best(After(k0, j)) == x;
    i := NthTick(acts, c, j);
    RanksAfter(trace, acts, results, c, i);
  }

  /** A run of calls in which only processor `c`'s own decisions concern its threads: its
      ready list is the same each time, the winners are the policy's, and of few enough
      equal threads each wins in time. */
  method Decisions(m: Scheduler, c: nat, acts: seq<Act>) returns (results: seq<int>, ghost l: seq<nat>)
    requires m.Valid() && Settled(m.Snap(), c) && forall i: nat | i < |acts| :: Calm(m.Snap(), acts[i], c)
    modifies m, m.th, m.cpu
    ensures m.Valid() && Like(old(m.Snap()), m.Snap(), c) && |results| == |acts|
    ensures InPool(old(L(m.lists, Run(c))), m.th.Length) && l == ReadyList(old(m.Snap()), c)
    ensures InPool(l, m.th.Length) && l != []
    ensures forall i: nat | i < |acts| && acts[i].Tick? && acts[i].c == c ::
      results[i] == l[Best(After(Ranks(old(m.th[..]), l), Ticks(acts[..i], c)))]
    ensures forall p: nat, b: nat, x: nat | InTime(Ranks(old(m.th[..]), l), p, b, x, Ticks(acts, c)) ::
      exists i: nat :: i < |acts| && acts[i].Tick? && acts[i].c == c && x < |l| && results[i] == l[x]
  {
    hide Inv, Rev, ReadyOf, Best, Ranks, Decide, After, Calm, Stepped, Like, Settled, InTime, Ticks;
    ghost var s := m.Snap();
    SettledCpu(s, c);
    ReadyNonEmpty(s, c);
    l := ReadyList(s, c);
    ghost var trace;
    results, trace := m.RunAll(acts);
    assert Window(trace, acts, results, c);
    RanksAfter(trace, acts, results, c, |acts|);
    forall i: nat | i < |acts| && acts[i].Tick? && acts[i].c == c
      ensures results[i] == l[Best(After(Ranks(s.th, l), Ticks(acts[..i], c)))]
    {
      RanksAfter(trace, acts, results, c, i);
    }
    forall p: nat, b: nat, x: nat | InTime(Ranks(s.th, l), p, b, x, Ticks(acts, c))
      ensures exists i: nat :: i < |acts| && acts[i].Tick? && acts[i].c == c && x < |l| && results[i] == l[x]
    {
      var i := BoundedWaiting(trace, acts, results, c, p, b, x);
    }
  }
}
