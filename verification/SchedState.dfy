/** The scheduler's lists: per processor a circular doubly linked run list and a
    stack of threads waiting to be taken over from another processor. Threads are
    numbered by their index in the thread pool. */
module SchedState {
  import opened PlaceLists

  const NIL: int := -1

  datatype Thread = Thread(next: int, prev: int, nextReady: int, prevReady: int, valid: bool, prio: nat, boost: nat,
                           max: nat, running: bool, suspended: nat, handleOpen: bool, terminated: bool, sleep: int,
                             cpu: int)

  datatype Cpu = Cpu(first: int, last: int, firstSwap: int, lastSwap: int, current: int)

  datatype Place = Run(c: nat) | Swap(c: nat) | Unused

  datatype St = St(th: seq<Thread>, cpu: seq<Cpu>, lists: Lists<Place>, own: seq<Place>, idle: seq<nat>)

  // ----- Circular lists, through the run links or the ready links

  function Nx(t: Thread, ready: bool): int {
    if ready then t.nextReady else t.next
  }

  function Pv(t: Thread, ready: bool): int {
    if ready then t.prevReady else t.prev
  }

  function SetNx(th: seq<Thread>, i: int, v: int, ready: bool): (r: seq<Thread>)
    requires 0 <= i < |th|
    ensures |r| == |th| && (forall j | 0 <= j < |th| && j != i :: r[j] == th[j])
    ensures Nx(r[i], ready) == v && Pv(r[i], ready) == Pv(th[i], ready)
  {
    th[i := if ready then th[i].(nextReady := v) else th[i].(next := v)]
  }

  function SetPv(th: seq<Thread>, i: int, v: int, ready: bool): (r: seq<Thread>)
    requires 0 <= i < |th|
    ensures |r| == |th| && (forall j | 0 <= j < |th| && j != i :: r[j] == th[j])
    ensures Pv(r[i], ready) == v && Nx(r[i], ready) == Nx(th[i], ready)
  {
    th[i := if ready then th[i].(prevReady := v) else th[i].(prev := v)]
  }

  function Succ(i: nat, n: nat): nat {
    if i + 1 < n then i + 1 else 0
  }

  function Pred(i: nat, n: nat): int {
    if i == 0 then n - 1 else i - 1
  }

  ghost predicate Distinct(s: seq<nat>) {
    forall i: nat, j: nat | i < j < |s| :: s[i] != s[j]
  }

  /** `s` is a circular doubly linked list. */
  ghost predicate Ring(th: seq<Thread>, s: seq<nat>, ready: bool) {
    && (forall i: nat | i < |s| :: s[i] < |th|)
    && (forall i: nat | i < |s| :: Nx(th[s[i]], ready) == s[Succ(i, |s|)] && Pv(th[s[i]], ready) == s[Pred(i, |s|)])
  }

  lemma RingIs(th: seq<Thread>, s: seq<nat>, ready: bool)
    requires forall i: nat | i < |s| :: s[i] < |th|
    requires forall i: nat | i < |s| :: Nx(th[s[i]], ready) == s[Succ(i, |s|)] && Pv(th[s[i]], ready) == s[Pred(i, |s|)]
    ensures Ring(th, s, ready)
  {
  }

  lemma RingAt(th: seq<Thread>, s: seq<nat>, ready: bool, i: nat)
    requires Ring(th, s, ready) && i < |s|
    ensures s[i] < |th| && Nx(th[s[i]], ready) == s[Succ(i, |s|)] && Pv(th[s[i]], ready) == s[Pred(i, |s|)]
  {
  }

  /** The four link writes that put `d` in front of a list. */
  function LinkFront(th: seq<Thread>, first: int, last: int, d: int, ready: bool): (r: seq<Thread>)
    requires 0 <= d < |th| && 0 <= first < |th| && 0 <= last < |th|
    ensures |r| == |th|
  {
    var a := SetPv(SetNx(th, d, first, ready), d, last, ready);
    SetNx(SetPv(a, first, d, ready), last, d, ready)
  }

  lemma LinkFrontAt(th: seq<Thread>, first: int, last: int, d: int, ready: bool, j: int)
    requires 0 <= d < |th| && 0 <= first < |th| && 0 <= last < |th| && d != first && d != last && 0 <= j < |th|
    ensures var r := LinkFront(th, first, last, d, ready);
      && Nx(r[j], ready) == (if j == last then d else if j == d then first else Nx(th[j], ready))
      && Pv(r[j], ready) == (if j == first then d else if j == d then last else Pv(th[j], ready))
      && (j != first && j != last && j != d ==> r[j] == th[j])
  {
    hide SetNx, SetPv, Nx, Pv;
  }

  lemma DistinctAt(s: seq<nat>, i: nat, j: nat)
    requires Distinct(s) && i < |s| && j < |s| && i != j
    ensures s[i] != s[j]
  {
  }

  lemma RingInsert(th: seq<Thread>, s: seq<nat>, d: nat, ready: bool)
    requires Ring(th, s, ready) && s != [] && Distinct(s) && d < |th| && d !in s
    ensures s[0] < |th| && s[|s| - 1] < |th| && Ring(LinkFront(th, s[0], s[|s| - 1], d, ready), [d] + s, ready)
  {
    hide Ring, LinkFront, Distinct, Nx, Pv;
    RingAt(th, s, ready, 0);
    RingAt(th, s, ready, |s| - 1);
    var n := [d] + s;
    forall i: nat | i < |n|
      ensures n[i] < |th|
    {
      if i > 0 {
        RingAt(th, s, ready, i - 1);
      }
    }
    var r := LinkFront(th, s[0], s[|s| - 1], d, ready);
    forall i: nat | i < |n|
      ensures Nx(r[n[i]], ready) == n[Succ(i, |n|)] && Pv(r[n[i]], ready) == n[Pred(i, |n|)]
    {
      InsertedAt(th, s, d, ready, i);
    }
    RingIs(r, n, ready);
  }

  lemma InsertedAt(th: seq<Thread>, s: seq<nat>, d: nat, ready: bool, i: nat)
    requires Ring(th, s, ready) && s != [] && Distinct(s) && d < |th| && d !in s && s[0] < |th| && s[|s| - 1] < |th|
    requires i <= |s| && ([d] + s)[i] < |th|
    ensures var n, r := [d] + s, LinkFront(th, s[0], s[|s| - 1], d, ready);
      Nx(r[n[i]], ready) == n[Succ(i, |n|)] && Pv(r[n[i]], ready) == n[Pred(i, |n|)]
  {
    hide LinkFront, Ring, Distinct, Nx, Pv;
    var n, m := [d] + s, |s|;
    LinkFrontAt(th, s[0], s[m - 1], d, ready, n[i]);
    if i > 0 {
      RingAt(th, s, ready, i - 1);
      if i - 1 > 0 {
        DistinctAt(s, i - 1, 0);
      }
      if i - 1 < m - 1 {
        DistinctAt(s, i - 1, m - 1);
      }
    }
  }

  /** The two link writes that take `d` out of its list. */
  function Unlink(th: seq<Thread>, d: int): (r: seq<Thread>)
    requires 0 <= d < |th| && 0 <= th[d].next < |th| && 0 <= th[d].prev < |th|
    ensures |r| == |th|
  {
    var next, prev := th[d].next, th[d].prev;
    SetNx(SetPv(th, next, prev, false), prev, next, false)
  }

  lemma UnlinkAt(th: seq<Thread>, d: int, j: int)
    requires 0 <= d < |th| && 0 <= th[d].next < |th| && 0 <= th[d].prev < |th| && 0 <= j < |th|
    ensures var r := Unlink(th, d);
      && r[j].next == (if j == th[d].prev then th[d].next else th[j].next)
      && r[j].prev == (if j == th[d].next then th[d].prev else th[j].prev)
      && (j != th[d].next && j != th[d].prev ==> r[j] == th[j])
  {
  }

  lemma RingRemove(th: seq<Thread>, s: seq<nat>, k: nat)
    requires Ring(th, s, false) && Distinct(s) && k < |s| && |s| >= 2
    ensures s[k] < |th| && 0 <= th[s[k]].next < |th| && 0 <= th[s[k]].prev < |th|
    ensures Ring(Unlink(th, s[k]), Without(s, k), false) && Unlink(th, s[k])[s[k]] == th[s[k]]
    ensures forall i | 0 <= i < |th| && i !in s :: Unlink(th, s[k])[i] == th[i]
  {
    hide Ring, Unlink, Distinct;
    var n, d := Without(s, k), s[k];
    RingAt(th, s, false, k);
    RingAt(th, s, false, Succ(k, |s|));
    RingAt(th, s, false, Pred(k, |s|));
    DistinctAt(s, k, Succ(k, |s|));
    DistinctAt(s, k, Pred(k, |s|));
    UnlinkAt(th, d, d);
    forall i | 0 <= i < |th| && i !in s
      ensures Unlink(th, d)[i] == th[i]
    {
      UnlinkAt(th, d, i);
    }
    forall i: nat | i < |n|
      ensures n[i] < |th|
    {
      RingAt(th, s, false, if i < k then i else i + 1);
    }
    forall i: nat | i < |n|
      ensures Nx(Unlink(th, d)[n[i]], false) == n[Succ(i, |n|)] && Pv(Unlink(th, d)[n[i]], false) == n[Pred(i, |n|)]
    {
      RemovedAt(th, s, k, i);
    }
    RingIs(Unlink(th, d), n, false);
  }

  lemma RemovedAt(th: seq<Thread>, s: seq<nat>, k: nat, i: nat)
    requires Ring(th, s, false) && Distinct(s) && k < |s| && |s| >= 2 && i < |s| - 1
    requires s[k] < |th| && 0 <= th[s[k]].next < |th| && 0 <= th[s[k]].prev < |th|
    ensures var n, r := Without(s, k), Unlink(th, s[k]);
      n[i] < |th| && Nx(r[n[i]], false) == n[Succ(i, |n|)] && Pv(r[n[i]], false) == n[Pred(i, |n|)]
  {
    var j := if i < k then i else i + 1;
    RemovedSucc(s, k, i);
    RemovedPred(s, k, i);
    hide Unlink, Ring, Distinct, Without;
    WithoutAt(s, k, i);
    RingAt(th, s, false, k);
    RingAt(th, s, false, j);
    UnlinkAt(th, s[k], s[j]);
    DistinctAt(s, j, k);
    var x, y := Succ(k, |s|), Pred(k, |s|);
    if j != x {
      DistinctAt(s, j, x);
    }
    if j != y {
      DistinctAt(s, j, y);
    }
  }

  lemma RemovedSucc(s: seq<nat>, k: nat, i: nat)
    requires k < |s| && |s| >= 2 && i < |s| - 1
    ensures var n, j := Without(s, k), if i < k then i else i + 1;
      n[Succ(i, |n|)] == s[if Succ(j, |s|) == k then Succ(k, |s|) else Succ(j, |s|)]
  {
  }

  lemma RemovedPred(s: seq<nat>, k: nat, i: nat)
    requires k < |s| && |s| >= 2 && i < |s| - 1
    ensures var n, j := Without(s, k), if i < k then i else i + 1;
      n[Pred(i, |n|)] == s[if Pred(j, |s|) == k then Pred(k, |s|) else Pred(j, |s|)]
  {
  }

  predicate SameLinks(a: Thread, b: Thread) {
    a.next == b.next && a.prev == b.prev
  }

  lemma RingFrame(th: seq<Thread>, n: seq<Thread>, s: seq<nat>)
    requires Ring(th, s, false) && |n| == |th| && forall i: nat | i < |th| && i in s :: SameLinks(th[i], n[i])
    ensures Ring(n, s, false)
  {
    forall i: nat | i < |s|
      ensures Nx(n[s[i]], false) == s[Succ(i, |s|)] && Pv(n[s[i]], false) == s[Pred(i, |s|)]
    {
      RingAt(th, s, false, i);
      assert SameLinks(th[s[i]], n[s[i]]);
    }
  }

  // ----- The stack of threads to take over

  function First(s: seq<nat>): int {
    if s == [] then NIL else s[0]
  }

  ghost predicate Stack(th: seq<Thread>, s: seq<nat>) {
    forall i: nat | i < |s| :: s[i] < |th| && StackedAt(th, s, i)
  }

  predicate StackedAt(th: seq<Thread>, s: seq<nat>, i: nat)
    requires i < |s| && s[i] < |th|
  {
    && th[s[i]].next == (if i + 1 < |s| then s[i + 1] else NIL)
    && th[s[i]].prev == (if i == 0 then NIL else s[i - 1])
  }

  lemma StackIs(th: seq<Thread>, s: seq<nat>)
    requires forall i: nat | i < |s| :: s[i] < |th| && StackedAt(th, s, i)
    ensures Stack(th, s)
  {
  }

  lemma StackAt(th: seq<Thread>, s: seq<nat>, i: nat)
    requires Stack(th, s) && i < |s|
    ensures s[i] < |th| && th[s[i]].next == (if i + 1 < |s| then s[i + 1] else NIL)
    ensures th[s[i]].prev == (if i == 0 then NIL else s[i - 1])
  {
  }

  lemma StackFrame(th: seq<Thread>, n: seq<Thread>, s: seq<nat>)
    requires Stack(th, s) && |n| == |th| && forall i: nat | i < |th| && i in s :: SameLinks(th[i], n[i])
    ensures Stack(n, s)
  {
    forall i: nat | i < |s|
      ensures s[i] < |n| && StackedAt(n, s, i)
    {
      StackAt(th, s, i);
      assert SameLinks(th[s[i]], n[s[i]]);
    }
  }

  /** The link writes that push `d`. */
  function Push(th: seq<Thread>, top: int, d: int): (r: seq<Thread>)
    requires 0 <= d < |th| && (top == NIL || 0 <= top < |th|)
    ensures |r| == |th|
  {
    var a := SetPv(SetNx(th, d, top, false), d, NIL, false);
    if top != NIL then SetPv(a, top, d, false) else a
  }

  lemma PushAt(th: seq<Thread>, top: int, d: int, j: int)
    requires 0 <= d < |th| && (top == NIL || 0 <= top < |th|) && top != d && 0 <= j < |th|
    ensures var r := Push(th, top, d);
      && r[j].next == (if j == d then top else th[j].next)
      && r[j].prev == (if j == d then NIL else if j == top then d else th[j].prev)
      && (j != d && j != top ==> r[j] == th[j])
  {
  }

  lemma StackPush(th: seq<Thread>, s: seq<nat>, d: nat)
    requires Stack(th, s) && Distinct(s) && d < |th| && d !in s
    ensures (First(s) == NIL || First(s) < |th|) && Stack(Push(th, First(s), d), [d] + s)
    ensures forall i | 0 <= i < |th| && i != d && i !in s :: Push(th, First(s), d)[i] == th[i]
  {
    hide Stack, Push, Distinct;
    if s != [] {
      StackAt(th, s, 0);
    }
    forall i | 0 <= i < |th| && i != d && i !in s
      ensures Push(th, First(s), d)[i] == th[i]
    {
      PushAt(th, First(s), d, i);
    }
    var n, r := [d] + s, Push(th, First(s), d);
    forall i: nat | i < |n|
      ensures n[i] < |r| && StackedAt(r, n, i)
    {
      if i > 0 {
        StackAt(th, s, i - 1);
      }
      PushAt(th, First(s), d, n[i]);
      if i > 1 {
        DistinctAt(s, i - 1, 0);
      }
    }
    StackIs(r, n);
  }

  /** The link write that pops the top. */
  function Pop(th: seq<Thread>, d: int): (r: seq<Thread>)
    requires 0 <= d < |th| && (th[d].next == NIL || 0 <= th[d].next < |th|)
    ensures |r| == |th|
  {
    if th[d].next != NIL then SetPv(th, th[d].next, th[d].prev, false) else th
  }

  lemma PopAt(th: seq<Thread>, d: int, j: int)
    requires 0 <= d < |th| && (th[d].next == NIL || 0 <= th[d].next < |th|) && th[d].next != d && 0 <= j < |th|
    ensures var r := Pop(th, d);
      && r[j].next == th[j].next && r[j].prev == (if j == th[d].next then th[d].prev else th[j].prev)
      && (j != th[d].next ==> r[j] == th[j])
  {
  }

  lemma StackPop(th: seq<Thread>, s: seq<nat>)
    requires Stack(th, s) && Distinct(s) && s != []
    ensures s[0] < |th| && th[s[0]].next == First(s[1..]) && th[s[0]].prev == NIL && (s[1..] != [] ==> s[1] < |th|)
    ensures Stack(Pop(th, s[0]), s[1..]) && Pop(th, s[0])[s[0]] == th[s[0]]
    ensures forall i | 0 <= i < |th| && i !in s :: Pop(th, s[0])[i] == th[i]
  {
    hide Stack, Pop, Distinct;
    var n, d := s[1..], s[0];
    StackAt(th, s, 0);
    if n != [] {
      StackAt(th, s, 1);
      DistinctAt(s, 0, 1);
    }
    PopAt(th, d, d);
    forall i | 0 <= i < |th| && i !in s
      ensures Pop(th, d)[i] == th[i]
    {
      PopAt(th, d, i);
    }
    var r := Pop(th, d);
    forall i: nat | i < |n|
      ensures n[i] < |r| && StackedAt(r, n, i)
    {
      StackAt(th, s, i + 1);
      PopAt(th, d, n[i]);
      if i > 0 {
        DistinctAt(s, i + 1, 1);
      }
    }
    StackIs(r, n);
  }
}
