/** The scheduler of threads/c_threads.c at work on the thread pool. Each locked
    section is one method. */
module Sched {
  import opened PlaceLists
  import opened SchedPolicy
  import opened SchedState
  import opened SchedSteps

  function Rev(s: seq<nat>): (r: seq<nat>)
    ensures |r| == |s|
  {
    if s == [] then [] else Rev(s[1..]) + [s[0]]
  }

  lemma {:induction false} RevSnoc(s: seq<nat>, x: nat)
    ensures Rev(s + [x]) == [x] + Rev(s)
  {
    if s == [] {
      assert s + [x] == [x];
    } else {
      assert (s + [x])[1..] == s[1..] + [x];
      RevSnoc(s[1..], x);
    }
  }

  /** The members of a list that are, or are not, dead. */
  ghost function Alive(th: seq<Thread>, s: seq<nat>): seq<nat>
    requires forall i: nat | i < |s| :: s[i] < |th|
  {
    if s == [] then []
    else
      var n := |s| - 1;
      if Dead(th[s[n]]) then Alive(th, s[..n]) else Alive(th, s[..n]) + [s[n]]
  }

  /** The run list after the first pass. When its first thread is freed, the pass
      ends at once. */
  ghost function Kept(th: seq<Thread>, s: seq<nat>): seq<nat>
    requires s != [] && forall i: nat | i < |s| :: s[i] < |th|
  {
    if Dead(th[s[0]]) then s[1..] else Alive(th, s)
  }

  ghost function ReadyOf(th: seq<Thread>, s: seq<nat>): seq<nat>
    requires forall i: nat | i < |s| :: s[i] < |th|
  {
    if s == [] then []
    else
      var n := |s| - 1;
      if Ready(th[s[n]]) then ReadyOf(th, s[..n]) + [s[n]] else ReadyOf(th, s[..n])
  }

  function Wake(t: Thread, now: int): Thread {
    if t.sleep != 0 && t.sleep - now < 0 then t.(sleep := 0) else t
  }

  /** Equal but for the run links. */
  predicate Same(a: Thread, b: Thread) {
    b == a.(next := b.next, prev := b.prev)
  }

  ghost predicate InPool(s: seq<nat>, n: nat) {
    forall i: nat | i < |s| :: s[i] < n
  }

  /** What the first pass does to a record, apart from links: freed threads are
      marked unused, visited ones have their timer checked. */
  ghost predicate PassedBy(a: Thread, b: Thread, now: int, visited: bool) {
    RankOf(b) == RankOf(a) && if !b.valid && a.valid then Dead(a) else Same(if visited then Wake(a, now) else a, b)
  }

  /** Equal but for the ready links. */
  predicate SameButReady(a: Thread, b: Thread) {
    b == a.(nextReady := b.nextReady, prevReady := b.prevReady)
  }

  function RankOf(t: Thread): Rank {
    Rank(t.prio, t.boost, t.max)
  }

  function Ranks(th: seq<Thread>, l: seq<nat>): (r: seq<Rank>)
    requires forall i: nat | i < |l| :: l[i] < |th|
    ensures |r| == |l|
  {
    seq(|l|, i requires 0 <= i < |l| => RankOf(th[l[i]]))
  }

  function Aged(t: Thread): Thread {
    if t.max > t.boost then t.(boost := t.boost + 1) else t
  }

  /** The run list after a decision: threads taken over, then those that stayed. */
  ghost predicate NextRun(s: St, c: nat, n: seq<nat>) {
    && L(s.lists, Run(c)) != [] && InPool(L(s.lists, Run(c)), |s.th|)
    && n == Rev(L(s.lists, Swap(c))) + Kept(s.th, L(s.lists, Run(c)))
  }

  /** On the ready list `l` the policy chooses `w`, a ready thread, and changes the
      ranks. */
  ghost predicate Decision(a: seq<Thread>, b: seq<Thread>, l: seq<nat>, w: int) {
    && |a| == |b| && l != [] && InPool(l, |a|)
    && w == l[Best(Ranks(a, l))] && Ranks(b, l) == Decide(Ranks(a, l)) && Ready(b[w]) && b[w].running
  }

  /** The same apart from timer, links, rank and processor. */
  predicate SameStatus(a: Thread, b: Thread) {
    && b.valid == a.valid && b.suspended == a.suspended && b.terminated == a.terminated
    && b.handleOpen == a.handleOpen
  }

  /** A thread that is not dead keeps its status; its timer is cleared exactly when the
      pass looked at it and its time has come. */
  predicate Steady(a: Thread, b: Thread, now: int, visited: bool) {
    !Dead(a) ==> SameStatus(a, b) && b.sleep == if visited && a.sleep != 0 && a.sleep < now then 0 else a.sleep
  }

  /** The threads that the first pass looks at, as far as they live on. */
  ghost function Visited(th: seq<Thread>, r: seq<nat>): seq<nat>
    requires r != [] && InPool(r, |th|)
  {
    if Dead(th[r[0]]) then [] else r
  }

  ghost predicate AllSteady(a: seq<Thread>, b: seq<Thread>, now: int, r: seq<nat>) {
    |a| == |b| && forall d: nat | d < |a| :: Steady(a[d], b[d], now, d in r)
  }

  /** Ranks change on the list `l` only. */
  ghost predicate OthersRank(a: seq<Thread>, b: seq<Thread>, l: seq<nat>) {
    |a| == |b| && forall d: nat | d < |a| && d !in l :: RankOf(b[d]) == RankOf(a[d])
  }

  /** What one decision of processor `c` does: `w` wins. */
  ghost predicate Ticked(a: St, b: St, c: nat, now: int, w: int) {
    && c < |a.cpu| == |b.cpu| && |a.th| == |b.th|
    && NextRun(a, c, L(b.lists, Run(c))) && L(b.lists, Swap(c)) == []
    && (forall q: Place | q != Run(c) && q != Swap(c) && q != Unused :: L(b.lists, q) == L(a.lists, q))
    && InPool(L(b.lists, Run(c)), |b.th|)
    && Decision(a.th, b.th, Rev(ReadyOf(b.th, L(b.lists, Run(c)))), w)
    && OthersRank(a.th, b.th, Rev(ReadyOf(b.th, L(b.lists, Run(c)))))
    && AllSteady(a.th, b.th, now, Visited(a.th, L(a.lists, Run(c))))
    && b.cpu[c].current == w && (forall e: nat | e < |a.cpu| && e != c :: b.cpu[e].current == a.cpu[e].current)
  }

  predicate Adjusted(a: Thread, b: Thread) {
    b == a.(prio := b.prio, max := b.max, suspended := b.suspended, handleOpen := b.handleOpen,
            terminated := b.terminated, sleep := b.sleep)
  }

  function Blank(i: int, ncpus: nat): Thread {
    if i < ncpus then Thread(i, i, NIL, NIL, true, 0, 0, 0, false, 0, true, false, 0, i)
    else Thread(NIL, NIL, NIL, NIL, false, 0, 0, 0, false, 0, false, false, 0, 0)
  }

  ghost function InitLists(k: nat, n: nat, m: nat): (r: Lists<Place>)
    requires m <= n
    ensures L(r, Unused) == seq(n - m, i requires 0 <= i => m + i)
    ensures forall c: nat :: L(r, Run(c)) == (if c < k then [c] else []) && L(r, Swap(c)) == []
  {
    if k == 0 then map[Unused := seq(n - m, i requires 0 <= i => m + i)]
    else InitLists(k - 1, n, m)[Run(k - 1) := [k - 1]]
  }

  lemma InitInv(s: St)
    requires |s.cpu| <= |s.th| == |s.own| && |s.idle| == |s.cpu| && s.lists == InitLists(|s.cpu|, |s.th|, |s.cpu|)
    requires forall i: nat | i < |s.th| ::
      s.th[i] == Blank(i, |s.cpu|) && s.own[i] == if i < |s.cpu| then Run(i) else Unused
    requires forall c: nat | c < |s.cpu| :: s.cpu[c] == Cpu(c, c, NIL, NIL, c) && s.idle[c] == c
    ensures Inv(s)
  {
    hide InitLists, Part, CpuOk;
    InitPart(s);
    forall c: nat | c < |s.cpu|
      ensures CpuOk(s.th, s.lists, s.cpu[c], c) && IdleOk(s, c)
    {
      InitCpu(s.th, s.lists, s.cpu[c], c);
    }
  }

  lemma InitCpu(th: seq<Thread>, lists: Lists<Place>, x: Cpu, c: nat)
    requires c < |th| && th[c].next == th[c].prev == c && x == Cpu(c, c, NIL, NIL, c)
    requires L(lists, Run(c)) == [c] && L(lists, Swap(c)) == []
    ensures CpuOk(th, lists, x, c)
  {
  }

  lemma InitPart(s: St)
    requires |s.cpu| <= |s.th| == |s.own| && s.lists == InitLists(|s.cpu|, |s.th|, |s.cpu|)
    requires forall i: nat | i < |s.th| :: s.own[i] == if i < |s.cpu| then Run(i) else Unused
    ensures Part(s.lists, s.own)
  {
    hide InitLists;
    forall d: nat | d < |s.own|
      ensures d in L(s.lists, s.own[d])
    {
      if d >= |s.cpu| {
        assert L(s.lists, Unused)[d - |s.cpu|] == d;
      }
    }
    forall p: Place, i: nat | i < |L(s.lists, p)|
      ensures L(s.lists, p)[i] < |s.own| && s.own[L(s.lists, p)[i]] == p
    {
      match p
      case Run(c) =>
      case Swap(c) =>
      case Unused =>
    }
    forall p: Place, i: nat, j: nat | i < j < |L(s.lists, p)|
      ensures L(s.lists, p)[i] != L(s.lists, p)[j]
    {
      match p
      case Run(c) =>
      case Swap(c) =>
      case Unused =>
    }
  }

  class Scheduler {
    const th: array<Thread>
    const cpu: array<Cpu>
    /** The idle thread of each processor. */
    const idle: seq<nat>
    ghost var lists: Lists<Place>
    ghost var own: seq<Place>

    ghost function Snap(): St
      reads this, th, cpu
    {
      St(th[..], cpu[..], lists, own, idle)
    }

    ghost predicate Valid()
      reads this, th, cpu
    {
      Inv(Snap())
    }

    /** One idle thread per processor, alone on its run list
        (thread_create_idle_thread). */
    constructor (nthreads: nat, ncpus: nat)
      requires ncpus <= nthreads
      ensures Valid() && fresh(th) && fresh(cpu) && th.Length == nthreads && cpu.Length == ncpus && |idle| == ncpus
      ensures forall c: nat | c < ncpus :: idle[c] == c && L(lists, Run(c)) == [c] && cpu[c].current == c
    {
      th := new Thread[nthreads](i requires 0 <= i => Blank(i, ncpus));
      cpu := new Cpu[ncpus](c requires 0 <= c => Cpu(c, c, NIL, NIL, c));
      lists := InitLists(ncpus, nthreads, ncpus);
      own := seq(nthreads, i requires 0 <= i => if i < ncpus then Run(i) else Unused);
      idle := seq(ncpus, i requires 0 <= i => i);
      new;
      InitInv(Snap());
    }

    /** Changes to a thread that is not idle, other than to the lists: terminating,
        closing the handle, suspending, resuming, sleeping, setting priorities. */
    method Adjust(d: nat, t: Thread)
      requires Valid() && d < th.Length && d !in idle && Adjusted(th[d], t)
      modifies th
      ensures Valid() && th[..] == old(th[..])[d := t]
    {
      hide Inv;
      ghost var s := Snap();
      PartOf(s);
      th[d] := t;
      forall c: nat | c < |s.idle|
        ensures s.idle[c] < th.Length && Ready(th[s.idle[c]])
      {
        InvCpu(s, c);
      }
      FieldsInv(s, Snap());
    }

    // ----- Link writes

    method WriteUnlink(d: nat)
      requires d < th.Length && 0 <= th[d].next < th.Length && 0 <= th[d].prev < th.Length
      modifies th
      ensures th[..] == Unlink(old(th[..]), d)
    {
      var next, prev := th[d].next, th[d].prev;
      th[next] := th[next].(prev := prev);
      th[prev] := th[prev].(next := next);
    }

    method WriteFront(c: nat, d: nat)
      requires c < cpu.Length && d < th.Length && 0 <= cpu[c].first < th.Length && 0 <= cpu[c].last < th.Length
      modifies th
      ensures th[..] == LinkFront(old(th[..]), cpu[c].first, cpu[c].last, d, false)
    {
      var first, last := cpu[c].first, cpu[c].last;
      th[d] := th[d].(next := first);
      th[d] := th[d].(prev := last);
      th[first] := th[first].(prev := d);
      th[last] := th[last].(next := d);
    }

    method Detach(c: nat, d: nat)
      requires c < cpu.Length && d < th.Length && 0 <= th[d].next < th.Length && 0 <= th[d].prev < th.Length
      requires Unlink(th[..], d)[d] == th[d]
      modifies th, cpu
      ensures th[..] == Unlink(old(th[..]), d)
      ensures cpu[..] == old(cpu[..])[c := Detached(old(cpu[c]), d, old(th[d]))]
    {
      ghost var t := th[d];
      WriteUnlink(d);
      assert th[d] == t;
      if cpu[c].first == d {
        cpu[c] := cpu[c].(first := th[d].next);
      }
      if cpu[c].last == d {
        cpu[c] := cpu[c].(last := th[d].prev);
      }
    }

    /** Pushes on the pending stack of `c`; its last pointer is never set. */
    method WritePush(c: nat, d: nat)
      requires c < cpu.Length && d < th.Length && (cpu[c].firstSwap == NIL || 0 <= cpu[c].firstSwap < th.Length)
      requires cpu[c].lastSwap == NIL
      modifies th
      ensures th[..] == Push(old(th[..]), cpu[c].firstSwap, d)
    {
      var top, last := cpu[c].firstSwap, cpu[c].lastSwap;
      th[d] := th[d].(next := top);
      th[d] := th[d].(prev := last);
      if top != NIL {
        th[top] := th[top].(prev := d);
      }
    }

    // ----- thread_create

    /** thread_pool_alloc, the search. */
    method PoolAlloc() returns (d: int)
      ensures d == NIL ==> forall i | 0 <= i < th.Length :: th[i].valid || th[i].handleOpen
      ensures d != NIL ==> 0 <= d < th.Length && !th[d].valid && !th[d].handleOpen
                           && forall i | 0 <= i < d :: th[i].valid || th[i].handleOpen
    {
      for i := 0 to th.Length
        invariant forall j | 0 <= j < i :: th[j].valid || th[j].handleOpen
      {
        if !th[i].valid && !th[i].handleOpen {
          return i;
        }
      }
      return NIL;
    }

    /** A new thread of priority 7 with boost up to 5, in front of the run list. */
    method Create(c: nat, suspended: bool) returns (d: int)
      requires Valid() && c < cpu.Length
      modifies this, th, cpu
      ensures Valid()
      ensures d == NIL ==> Snap() == old(Snap()) && forall i | 0 <= i < th.Length :: th[i].valid || th[i].handleOpen
      ensures d != NIL ==> 0 <= d < th.Length && L(lists, Run(c)) == [d] + old(L(lists, Run(c))) && th[d].cpu == c
      ensures d != NIL ==> th[d].prio == 7 && th[d].max == 5 && th[d].boost == 0
      ensures d != NIL ==> th[d].valid && th[d].handleOpen && !th[d].terminated && th[d].sleep == 0
      ensures d != NIL ==> th[d].suspended == if suspended then 1 else 0
      ensures d != NIL ==> forall p: Place | p != Run(c) && p != Unused :: L(lists, p) == old(L(lists, p))
      ensures forall i: nat | i < th.Length && i != d :: Same(old(th[i]), th[i])
      ensures forall e: nat | e < cpu.Length :: cpu[e].current == old(cpu[e].current)
    {
      hide Inv, LinkFront, MoveAt;
      d := PoolAlloc();
      if d == NIL {
        return;
      }
      ghost var s := Snap();
      ghost var k := UnusedAt(s, d);
      Ends(s, c);
      var t := Thread(0, 0, 0, 0, true, 7, 0, 5, false, if suspended then 1 else 0, true, false, 0, c);
      CreateInv(s, c, k, t);
      MoveAtAre(s.lists, Unused, k, Run(c));
      LinkSame(s.th[d := t], s.cpu[c].first, s.cpu[c].last, d);
      th[d] := t;
      assert th[..] == s.th[d := t];
      WriteFront(c, d);
      cpu[c] := cpu[c].(first := d);
      lists, own := MoveAt(lists, Unused, k, Run(c)), own[d := Run(c)];
      assert Snap() == CreateS(s, c, k, t);
    }

    // ----- thread_set_processor

    /** A thread on a run list, not an idle one, is handed to another processor. */
    method SetProcessor(d: nat, to: nat)
      requires Valid() && d < th.Length && to < cpu.Length && |own| == th.Length && own[d].Run? && d !in idle
      modifies this, th, cpu
      ensures Valid()
      ensures old(own[d]) == Run(to) ==> Snap() == old(Snap())
      ensures old(own[d]) != Run(to) ==>
        && own[d] == Swap(to) && L(lists, Swap(to)) == [d] + old(L(lists, Swap(to))) && d !in L(lists, old(own[d]))
        && (forall p: Place | p != Swap(to) && p != old(own[d]) :: L(lists, p) == old(L(lists, p)))
        && Same(old(th[d]).(cpu := to), th[d])
      ensures forall i: nat | i < th.Length && i != d :: Same(old(th[i]), th[i])
      ensures forall e: nat | e < cpu.Length :: cpu[e].current == old(cpu[e].current)
    {
      hide Inv, Unlink, Push, MoveAt;
      ghost var s := Snap();
      InvTh(s, d);
      var c := th[d].cpu;
      if c != to {
        ghost var k := RunAt(s, d);
        PartOf(s);
        MigrateLists(s, c, k, to);
        MigrateRest(s, c, k, to);
        Migrate(c, d, to, k);
      }
    }

    method Migrate(c: nat, d: nat, to: nat, ghost k: nat)
      requires Valid() && CanMigrate(Snap(), c, k, to) && L(lists, Run(c))[k] == d
      modifies this, th, cpu
      ensures Valid() && Snap() == MigrateS(old(Snap()), c, k, to)
    {
      hide Inv, Unlink, Push, MoveAt, Ring, Stack, Detached;
      ghost var s := Snap();
      PartOf(s);
      DetachOk(s, c, k);
      SwapTop(s, to);
      MigrateInv(s, c, k, to);
      Detach(c, d);
      WritePush(to, d);
      ghost var u, x := th[..], cpu[..];
      cpu[to] := cpu[to].(firstSwap := d);
      th[d] := th[d].(cpu := to);
      assert th[..] == u[d := u[d].(cpu := to)] && cpu[..] == x[to := s.cpu[to].(firstSwap := d)];
      lists, own := MoveAt(lists, Run(c), k, Swap(to)), own[d := Swap(to)];
      assert Snap() == MigrateS(s, c, k, to);
    }

    // ----- thread_schedule_core, first pass

    method Reap(c: nat, p: nat, ghost k: nat)
      requires Valid() && c < cpu.Length == |idle| && k < |L(lists, Run(c))| && L(lists, Run(c))[k] == p != idle[c]
      modifies this, th, cpu
      ensures Valid() && p < th.Length && th[p] == old(th[p]).(valid := false)
      ensures lists == MoveAt(old(lists), Run(c), k, Unused)
      ensures forall i: nat | i < th.Length && i != p :: Same(old(th[i]), th[i])
      ensures forall e: nat | e < cpu.Length :: cpu[e].current == old(cpu[e].current)
    {
      hide Inv, Unlink, MoveAt, Ring, Stack;
      ghost var s := Snap();
      Member(s, Run(c), k);
      DetachOk(s, c, k);
      UnlinkTouches(s, c, k);
      ReapInv(s, c, k);
      Detach(c, p);
      th[p] := th[p].(valid := false);
      lists, own := MoveAt(lists, Run(c), k, Unused), own[p := Unused];
      assert Snap() == ReapS(s, c, k);
    }

    /** One thread of the first pass: its timer, and whether it is to be freed. */
    method Visit(c: nat, p: nat, now: int, ghost k: nat) returns (next: int)
      requires Valid() && c < cpu.Length && k < |L(lists, Run(c))| && L(lists, Run(c))[k] == p
      modifies this, th, cpu
      ensures Valid() && p < th.Length
      ensures next == old(L(lists, Run(c)))[Succ(k, |old(L(lists, Run(c)))|)]
      ensures L(lists, Run(c)) == if Dead(old(th[p])) then Without(old(L(lists, Run(c))), k) else old(L(lists, Run(c)))
      ensures forall q: Place | q != Run(c) && q != Unused :: L(lists, q) == old(L(lists, q))
      ensures forall i: nat | i < th.Length && i != p :: Same(old(th[i]), th[i])
      ensures old(th[p]).valid && PassedBy(old(th[p]), th[p], now, true) && (Dead(old(th[p])) ==> !th[p].valid)
      ensures forall e: nat | e < cpu.Length :: cpu[e].current == old(cpu[e].current)
    {
      hide Inv, Unlink, MoveAt;
      ghost var s := Snap();
      Member(s, Run(c), k);
      InvTh(s, p);
      RunNext(s, c, k);
      WakeInv(s, p, now);
      if th[p].sleep != 0 {
        if th[p].sleep - now < 0 {
          th[p] := th[p].(sleep := 0);
        }
      }
      assert th[..] == s.th[p := Wake(s.th[p], now)];
      if th[p].terminated && !th[p].handleOpen {
        ghost var a := Snap();
        assert a == s.(th := s.th[p := Wake(s.th[p], now)]);
        DeadNotIdle(a, c, p);
        MoveAtAre(a.lists, Run(c), k, Unused);
        Reap(c, p, k);
      }
      next := th[p].next;
    }

    /** The first pass: wake what is due and free what is dead, up to the quirk that
        freeing the first thread ends the pass. */
    method ReapPass(c: nat, now: int)
      requires Valid() && c < cpu.Length && InPool(L(lists, Run(c)), th.Length)
      modifies this, th, cpu
      ensures Valid() && old(L(lists, Run(c))) != []
      ensures L(lists, Run(c)) == Kept(old(th[..]), old(L(lists, Run(c))))
      ensures forall q: Place | q != Run(c) && q != Unused :: L(lists, q) == old(L(lists, q))
      ensures forall d: nat | d < th.Length ::
        PassedBy(old(th[d]), th[d], now, d in old(L(lists, Run(c))) && !Dead(old(th[..])[old(L(lists, Run(c)))[0]]))
      ensures RanksEq(old(th[..]), th[..])
      ensures AllSteady(old(th[..]), th[..], now, Visited(old(th[..]), old(L(lists, Run(c)))))
      ensures forall e: nat | e < cpu.Length :: cpu[e].current == old(cpu[e].current)
    {
      hide Inv, Alive, Without, CpuOk, IdleOk;
      ghost var s, r, t0 := Snap(), L(lists, Run(c)), th[..];
      Ends(s, c);
      InvCpu(s, c);
      FirstKept(t0, r);
      var p := Visit(c, cpu[c].first, now, 0);
      Ends(Snap(), c);
      assert r[..1] == [r[0]];
      if p != cpu[c].first {
        PassRest(c, p, now, t0, r);
      } else {
        WholePass(t0, r);
      }
      ghost var go := !Dead(t0[r[0]]);
      forall d: nat | d < th.Length
        ensures Steady(t0[d], th[d], now, d in Visited(t0, r))
      {
        PassedSteady(t0[d], th[d], now, d in r && go);
      }
    }

    /** The pass from the second thread on, the first having stayed. */
    method PassRest(c: nat, second: int, now: int, ghost t0: seq<Thread>, ghost r: seq<nat>)
      requires Valid() && c < cpu.Length && |t0| == th.Length && InPool(r, th.Length) && Distinct(r)
      requires L(lists, Run(c)) == r && |r| >= 2 && second == r[1] && !Dead(t0[r[0]])
      requires forall d: nat | d < th.Length :: PassedBy(t0[d], th[d], now, d in r[..1])
      modifies this, th, cpu
      ensures Valid() && L(lists, Run(c)) == Alive(t0, r)
      ensures forall q: Place | q != Run(c) && q != Unused :: L(lists, q) == old(L(lists, q))
      ensures forall d: nat | d < th.Length :: PassedBy(t0[d], th[d], now, d in r)
      ensures forall e: nat | e < cpu.Length :: cpu[e].current == old(cpu[e].current)
    {
      hide Inv, Alive, PassedBy, Distinct, InPass;
      ghost var s, i := Snap(), 1;
      InPassFirst(t0, r);
      Ends(s, c);
      var p := second;
      DistinctAt(r, 1, 0);
      while p != cpu[c].first
        invariant Valid() && 1 <= i <= |r| && cpu[c].first == r[0]
        invariant InPass(t0, r, i, L(lists, Run(c))) && p == if i < |r| then r[i] else r[0]
        invariant forall q: Place | q != Run(c) && q != Unused :: L(lists, q) == L(s.lists, q)
        invariant forall d: nat | d < th.Length :: PassedBy(t0[d], th[d], now, d in r[..i])
        invariant forall e: nat | e < cpu.Length :: cpu[e].current == s.cpu[e].current
        decreases |r| - i
      {
        p := PassStep(c, p, now, t0, r, i);
        i := i + 1;
      }
      if i < |r| {
        DistinctAt(r, i, 0);
      }
      assert r[..i] == r;
      InPassLast(t0, r, L(lists, Run(c)));
    }

    method PassStep(c: nat, p: nat, now: int, ghost t0: seq<Thread>, ghost r: seq<nat>, ghost i: nat)
      returns (next: int)
      requires Valid() && c < cpu.Length && |t0| == th.Length && InPool(r, th.Length) && Distinct(r)
      requires 1 <= i < |r| && InPass(t0, r, i, L(lists, Run(c))) && p == r[i]
      requires forall d: nat | d < th.Length :: PassedBy(t0[d], th[d], now, d in r[..i])
      modifies this, th, cpu
      ensures Valid() && InPass(t0, r, i + 1, L(lists, Run(c))) && cpu[c].first == r[0]
      ensures next == if i + 1 < |r| then r[i + 1] else r[0]
      ensures forall q: Place | q != Run(c) && q != Unused :: L(lists, q) == old(L(lists, q))
      ensures forall d: nat | d < th.Length :: PassedBy(t0[d], th[d], now, d in r[..i + 1])
      ensures forall e: nat | e < cpu.Length :: cpu[e].current == old(cpu[e].current)
    {
      hide Inv, Alive, Without, PassedBy, Same, Distinct;
      ghost var b := th[..];
      AliveStep(t0, r, i);
      next := Visit(c, p, now, |Alive(t0, r[..i])|);
      Ends(Snap(), c);
      PassOn(t0, b, th[..], r, i, now);
    }

    // ----- thread_schedule_core, taking over migrated threads

    method TakeOver(c: nat)
      requires Valid() && c < cpu.Length && L(lists, Swap(c)) != []
      modifies this, th, cpu
      ensures Valid()
      ensures L(lists, Run(c)) == [old(L(lists, Swap(c)))[0]] + old(L(lists, Run(c)))
      ensures L(lists, Swap(c)) == old(L(lists, Swap(c)))[1..]
      ensures forall q: Place | q != Run(c) && q != Swap(c) :: L(lists, q) == old(L(lists, q))
      ensures forall d: nat | d < th.Length :: Same(old(th[d]), th[d])
      ensures forall e: nat | e < cpu.Length :: cpu[e].current == old(cpu[e].current)
    {
      hide Inv, Pop, LinkFront, Stack, Ring;
      ghost var s := Snap();
      PopOk(s, c);
      Ends(s, c);
      TakeOverInv(s, c);
      ghost var d0 := L(lists, Swap(c))[0];
      InvTh(s, d0);
      LinkedIn(s, Pop(s.th, d0), c, d0);
      hide LinkFront, CpuOk, ThOk;
      var d := cpu[c].firstSwap;
      th[d] := th[d].(cpu := c);
      assert th[..] == s.th;
      WritePop(d);
      cpu[c] := cpu[c].(firstSwap := th[d].next);
      WriteFront(c, d);
      cpu[c] := cpu[c].(first := d);
      lists, own := MoveFront(lists, Swap(c), Run(c)), own[d := Run(c)];
      assert Snap() == TakeOverS(s, c);
    }

    method WritePop(d: nat)
      requires d < th.Length && (th[d].next == NIL || 0 <= th[d].next < th.Length) && th[d].prev == NIL
      requires th[d].next != d
      modifies th
      ensures th[..] == Pop(old(th[..]), d) && th[d] == old(th[d])
    {
      if th[d].next != NIL {
        th[th[d].next] := th[th[d].next].(prev := th[d].prev);
      }
    }

    /** The whole pending stack goes in front of the run list. */
    method Drain(c: nat)
      requires Valid() && c < cpu.Length
      modifies this, th, cpu
      ensures Valid() && L(lists, Swap(c)) == []
      ensures L(lists, Run(c)) == Rev(old(L(lists, Swap(c)))) + old(L(lists, Run(c)))
      ensures forall q: Place | q != Run(c) && q != Swap(c) :: L(lists, q) == old(L(lists, q))
      ensures forall d: nat | d < th.Length :: Same(old(th[d]), th[d])
      ensures forall e: nat | e < cpu.Length :: cpu[e].current == old(cpu[e].current)
    {
      hide Inv, Same, Rev, Drained;
      ghost var s, w, j := Snap(), L(lists, Swap(c)), 0;
      SwapTop(s, c);
      SameRefl(s.th);
      DrainNone(lists, c);
      while cpu[c].firstSwap != NIL
        invariant Valid() && j <= |w| && cpu[c].firstSwap == First(w[j..]) && Drained(s.lists, lists, c, j)
        invariant forall d: nat | d < th.Length :: Same(s.th[d], th[d])
        invariant forall e: nat | e < cpu.Length :: cpu[e].current == s.cpu[e].current
        decreases |w| - j
      {
        ghost var b := Snap();
        DrainAt(s.lists, lists, c, j);
        TakeOver(c);
        SameAll(s.th, b.th, th[..]);
        DrainStep(s.lists, b.lists, lists, c, j);
        j := j + 1;
        DrainAt(s.lists, lists, c, j);
        SwapTop(Snap(), c);
      }
      DrainAll(s.lists, lists, c);
    }

    // ----- thread_schedule_core, the ready list and the decision

    /** Puts `p` in front of the ready list held by `first` and `last`. */
    method PushReady(p: nat, first: int, last: int, ghost l: seq<nat>)
      requires p < th.Length && Ring(th[..], l, true) && Distinct(l) && p !in l
      requires l != [] ==> first == l[0] && last == l[|l| - 1] && 0 <= first < th.Length && 0 <= last < th.Length
      requires l == [] <==> first == NIL
      modifies th
      ensures Ring(th[..], [p] + l, true)
      ensures forall d: nat | d < th.Length :: SameButReady(old(th[d]), th[d])
    {
      hide Ring, Distinct;
      if first == NIL {
        th[p] := th[p].(nextReady := p);
        th[p] := th[p].(prevReady := p);
        RingOne(th[..], p);
      } else {
        RingInsert(th[..], l, p, true);
        ghost var s := th[..];
        th[p] := th[p].(nextReady := first);
        th[p] := th[p].(prevReady := last);
        th[first] := th[first].(prevReady := p);
        th[last] := th[last].(nextReady := p);
        assert th[..] == LinkFront(s, first, last, p, true);
      }
    }

    /** The ready list: the ready threads of the run list, last first. */
    method BuildReady(c: nat) returns (first: int, ghost l: seq<nat>)
      requires Valid() && c < cpu.Length && InPool(L(lists, Run(c)), th.Length)
      modifies th
      ensures Valid() && InPool(l, th.Length) && Ring(th[..], l, true) && Distinct(l)
      ensures l == Rev(ReadyOf(old(th[..]), L(lists, Run(c)))) && first == First(l)
      ensures forall d: nat | d < th.Length :: SameButReady(old(th[d]), th[d])
    {
      hide Inv, Ring, Distinct, ReadyOf, Rev, SameButReady, InReady;
      ghost var s, r, t0, i := Snap(), L(lists, Run(c)), th[..], 0;
      Ends(s, c);
      InvCpu(s, c);
      first, l := NIL, [];
      var last, p, more := NIL, cpu[c].first, true;
      InReadyNil(t0, r);
      SameReadyRefl(t0);
      while more
        invariant i <= |r| && (more <==> i < |r|) && p == if i < |r| then r[i] else r[0]
        invariant InReady(t0, r, i, l) && Ring(th[..], l, true)
        invariant first == First(l) && (l != [] ==> last == l[|l| - 1])
        invariant forall d: nat | d < th.Length :: SameButReady(t0[d], th[d])
        decreases |r| - i
      {
        ghost var b := th[..];
        ReadyStep(t0, b, r, i, l);
        if !th[p].terminated && th[p].suspended == 0 && th[p].sleep == 0 && th[p].valid {
          PushReady(p, first, last, l);
          SameReadyAll(t0, b, th[..]);
          if first == NIL {
            last := p;
          }
          first, l := p, [p] + l;
        }
        RunLink(s, th[..], c, i);
        p := th[p].next;
        more := p != cpu[c].first;
        if i + 1 < |r| {
          DistinctAt(r, i + 1, 0);
        }
        i := i + 1;
      }
      InReadyLast(t0, r, l);
      ReadyMinor(t0, th[..]);
      MinorInv(s, Snap());
    }

    /** The first thread of the ready list with the highest key. */
    method Pick(first: int, ghost l: seq<nat>) returns (w: int, ghost k: nat)
      requires l != [] && first == l[0] && InPool(l, th.Length) && Ring(th[..], l, true) && Distinct(l)
      ensures k < |l| && w == l[k] && k == Best(Ranks(th[..], l))
    {
      hide Ring, Distinct, Best;
      w, k := first, 0;
      RingAt(th[..], l, true, 0);
      var p, more := th[first].nextReady, true;
      ghost var i: nat, m: nat := Succ(0, |l|), 1;
      BestOne(th[..], l);
      while more
        invariant i < |l| && p == l[i] && 1 <= m <= |l| && k < m && w == l[k]
        invariant k == Best(Ranks(th[..], l)[..m])
        invariant if more then (i == m || (i == 0 && m == 1 == |l|)) else m == |l|
        decreases |l| - m, more
      {
        RingAt(th[..], l, true, i);
        RingAt(th[..], l, true, k);
        if i > 0 {
          BestStep(th[..], l, i);
        }
        if th[p].prio + th[p].boost > th[w].prio + th[w].boost {
          w, k := p, i;
        }
        m := if i == 0 then m else m + 1;
        p, i := th[p].nextReady, Succ(i, |l|);
        more := p != first;
        if i > 0 {
          DistinctAt(l, i, 0);
        }
      }
      assert Ranks(th[..], l)[..m] == Ranks(th[..], l);
    }

    /** Every ready thread but the winner ages. */
    method Boost(first: int, w: int, ghost l: seq<nat>)
      requires l != [] && first == l[0] && InPool(l, th.Length) && Ring(th[..], l, true) && Distinct(l)
      modifies th
      ensures forall d: nat | d < th.Length :: th[d] == if d in l && d != w then Aged(old(th[d])) else old(th[d])
    {
      hide Ring, Distinct;
      ghost var t0, i := th[..], 0;
      var p, more := first, true;
      while more
        invariant i <= |l| && (more <==> i < |l|) && p == if i < |l| then l[i] else l[0]
        invariant forall d: nat | d < th.Length :: th[d] == if d in l[..i] && d != w then Aged(t0[d]) else t0[d]
        decreases |l| - i
      {
        RingAt(t0, l, true, i);
        Fresh(l, i);
        if p != w {
          if th[p].max > th[p].boost {
            th[p] := th[p].(boost := th[p].boost + 1);
          }
        }
        p := th[p].nextReady;
        more := p != first;
        if i + 1 < |l| {
          DistinctAt(l, i + 1, 0);
        }
        i := i + 1;
      }
      assert l[..i] == l;
    }

    /** thread_schedule_core: `l` is the ready list, number `k` on it wins. */
    method Core(c: nat, now: int) returns (w: int, ghost l: seq<nat>, ghost k: nat)
      requires Valid() && c < cpu.Length && InPool(L(lists, Run(c)), th.Length)
      modifies this, th, cpu
      ensures Valid() && InPool(L(lists, Run(c)), th.Length) && L(lists, Swap(c)) == []
      ensures NextRun(old(Snap()), c, L(lists, Run(c)))
      ensures l == Rev(ReadyOf(th[..], L(lists, Run(c)))) && l != [] && InPool(l, th.Length) && Distinct(l)
      ensures k < |l| && w == l[k] && Ready(th[w]) && k == Best(Ranks(old(th[..]), l))
      ensures 0 <= w < th.Length && Aging(th[..], l, k, Ranks(old(th[..]), l)) && OthersRank(old(th[..]), th[..], l)
      ensures old(L(lists, Run(c))) != []
      ensures AllSteady(old(th[..]), th[..], now, Visited(old(th[..]), old(L(lists, Run(c)))))
      ensures forall q: Place | q != Run(c) && q != Swap(c) && q != Unused :: L(lists, q) == old(L(lists, q))
      ensures forall e: nat | e < cpu.Length :: cpu[e].current == old(cpu[e].current)
    {
      hide Inv, Kept, Rev, ReadyOf, Ready, Distinct, Ring, Best, Ranks, PassedBy, Same, SameButReady, InPool, Minor;
      hide RanksEq, Aging, AllSteady, OthersRank, Visited;
      ghost var t0, x := th[..], L(lists, Run(c));
      ReapPass(c, now);
      ghost var r := Visited(t0, x);
      ghost var a := th[..];
      Drain(c);
      ghost var b := Snap();
      SameRanks(t0, a, b.th);
      SameSteady(t0, a, b.th, now, r);
      RunInPool(b, c);
      var first;
      first, l := BuildReady(c);
      IdleReady(b, c, l);
      ReadyMinor(b.th, th[..]);
      RanksOf(t0, b.th, l);
      RanksOf(b.th, th[..], l);
      MinorSteady(t0, b.th, th[..], now, r);
      MinorReady(b.th, th[..], L(lists, Run(c)));
      w, k := Pick(first, l);
      ghost var e := Snap();
      Boost(first, w, l);
      BoostRanks(e.th, th[..], l, k);
      MinorSteady(t0, e.th, th[..], now, r);
      BoostOthers(t0, b.th, e.th, th[..], l, w);
      MinorInv(e, Snap());
      MinorReady(e.th, th[..], L(lists, Run(c)));
      ListReady(th[..], L(lists, Run(c)), k);
    }

    // ----- thread_schedule

    /** One scheduling decision of processor `c`: `l` is the ready list it was made
        on, and `w` the winner. */
    method Schedule(c: nat, now: int) returns (w: int, ghost l: seq<nat>)
      requires Valid() && c < cpu.Length
      modifies this, th, cpu
      ensures Valid() && Ticked(old(Snap()), Snap(), c, now, w) && l == Rev(ReadyOf(th[..], L(lists, Run(c))))
    {
      hide Inv, Kept, Rev, ReadyOf, Distinct, Best, Ranks, Decide, InPool, Aging, AllSteady, OthersRank, Visited;
      ghost var s, t0 := Snap(), th[..];
      Ends(s, c);
      RunInPool(s, c);
      var cur := cpu[c].current;
      th[cur] := th[cur].(running := false);
      MinorInv(s, Snap());
      MinorKept(t0, th[..], L(lists, Run(c)));
      ghost var a := th[..];
      ghost var k;
      w, l, k := Core(c, now);
      RanksOf(t0, a, l);
      ghost var b := Snap();
      th[w] := th[w].(boost := 0);
      cpu[c] := cpu[c].(current := w);
      th[w] := th[w].(running := true);
      MinorInv(b, Snap());
      MinorReady(b.th, th[..], L(lists, Run(c)));
      Decided(t0, b.th, th[..], l, k);
      MinorVisited(t0, a, L(s.lists, Run(c)));
      SteadyMinor(t0, a, b.th, now, Visited(t0, L(s.lists, Run(c))));
      MinorSteady(t0, b.th, th[..], now, Visited(t0, L(s.lists, Run(c))));
      WinnerOthers(t0, a, b.th, th[..], l, w);
    }

    /** Whether thread `d` is on the run list of `c`, by walking it. */
    method OnRun(c: nat, d: nat) returns (b: bool)
      requires Valid() && c < cpu.Length
      ensures b <==> d in L(lists, Run(c))
    {
      hide Inv, CpuOk, IdleOk;
      ghost var r := L(lists, Run(c));
      Ends(Snap(), c);
      var p := cpu[c].first;
      ghost var i := 0;
      while true
        invariant 0 <= i < |r| && p == r[i] && d !in r[..i]
        decreases |r| - i
      {
        if p == d {
          return true;
        }
        RunNext(Snap(), c, i);
        assert r[..i + 1] == r[..i] + [r[i]];
        p := th[p].next;
        i := i + 1;
        if p == cpu[c].first {
          FirstOnce(Snap(), c, i);
          assert r[..i] == r;
          return false;
        }
      }
    }

    /** Any call whose arguments make sense; others do nothing. The result is the new
        thread or the winner. */
    method Do(act: Act) returns (result: int)
      requires Valid()
      modifies this, th, cpu
      ensures Valid() && Stepped(old(Snap()), act, Snap(), result)
    {
      hide Inv, Ticked, SameStatus;
      result := NIL;
      ghost var s := Snap();
      match act
      case New(c, suspended) =>
        if c < cpu.Length {
          result := Create(c, suspended);
        }
      case Move(d, to) =>
        if d < th.Length && to < cpu.Length && d !in idle {
          InvTh(s, d);
          OnOneList(s, d, Unused);
          if th[d].valid {
            OnOneList(s, d, Run(th[d].cpu));
            var b := OnRun(th[d].cpu, d);
            if b {
              SetProcessor(d, to);
              InvTh(Snap(), d);
            }
          }
        }
      case Change(d, prio, max, suspends, handleOpen, terminated, sleep) =>
        if d < th.Length && d !in idle {
          Adjust(d, Altered(th[d], act));
          assert Snap() == s.(th := s.th[d := Altered(s.th[d], act)]);
        }
      case Tick(c, now) =>
        if c < cpu.Length {
          ghost var l;
          result, l := Schedule(c, now);
        }
    }

    /** Every run of creations, migrations, changes and decisions, on any processors in
        any order, keeps all lists consistent; `trace` holds every state on the way. */
    method RunAll(acts: seq<Act>) returns (results: seq<int>, ghost trace: seq<St>)
      requires Valid()
      modifies this, th, cpu
      ensures Valid() && IsTrace(trace, acts, results) && trace[0] == old(Snap()) && trace[|acts|] == Snap()
    {
      hide Inv, Stepped;
      results, trace := [], [Snap()];
      for i := 0 to |acts|
        invariant Valid() && IsTrace(trace, acts[..i], results) && trace[0] == old(Snap()) && trace[i] == Snap()
      {
        var r := Do(acts[i]);
        TraceOn(trace, acts[..i], results, acts[i], Snap(), r);
        assert acts[..i + 1] == acts[..i] + [acts[i]];
        results, trace := results + [r], trace + [Snap()];
      }
      assert acts[..|acts|] == acts;
    }
  }

  // ----- Whole runs

  /** A call into the scheduler. */
  datatype Act =
    | New(c: nat, suspended: bool)
    | Move(d: nat, to: nat)
    | Change(d: nat, prio: nat, max: nat, suspends: nat, handleOpen: bool, terminated: bool, sleep: int)
    | Tick(c: nat, now: int)

  /** The thread after a change of its status or priorities. */
  function Altered(t: Thread, act: Act): Thread
    requires act.Change?
  {
    t.(prio := act.prio, max := act.max, suspended := act.suspends, handleOpen := act.handleOpen,
       terminated := act.terminated, sleep := act.sleep)
  }

  /** A new thread `d` in front of processor `c`'s run list, or no slot for it. */
  ghost predicate Created(a: St, b: St, c: nat, suspended: bool, d: int) {
    if d == NIL then b == a && forall i: nat | i < |a.th| :: a.th[i].valid || a.th[i].handleOpen
    else
      && 0 <= d < |a.th| == |b.th| && |a.cpu| == |b.cpu| && L(b.lists, Run(c)) == [d] + L(a.lists, Run(c))
      && b.th[d].cpu == c
      && b.th[d].prio == 7 && b.th[d].max == 5 && b.th[d].boost == 0
      && b.th[d].valid && b.th[d].handleOpen && !b.th[d].terminated && b.th[d].sleep == 0
      && b.th[d].suspended == (if suspended then 1 else 0)
      && (forall p: Place | p != Run(c) && p != Unused :: L(b.lists, p) == L(a.lists, p))
      && (forall i: nat | i < |a.th| && i != d :: Same(a.th[i], b.th[i]))
      && (forall e: nat | e < |a.cpu| :: b.cpu[e].current == a.cpu[e].current)
  }

  /** Thread `d` of a run list goes to processor `to`. */
  ghost predicate HandedOver(a: St, b: St, d: nat, to: nat)
    requires d < |a.own| == |a.th|
  {
    && |b.th| == |a.th| == |b.own| && |a.cpu| == |b.cpu|
    && b.own[d] == Swap(to) && L(b.lists, Swap(to)) == [d] + L(a.lists, Swap(to)) && d !in L(b.lists, a.own[d])
    && (forall p: Place | p != Swap(to) && p != a.own[d] :: L(b.lists, p) == L(a.lists, p))
    && Same(a.th[d].(cpu := to), b.th[d]) && (forall i: nat | i < |a.th| && i != d :: Same(a.th[i], b.th[i]))
    && (forall e: nat | e < |a.cpu| :: b.cpu[e].current == a.cpu[e].current)
  }

  /** What a call does, as its contract says; calls that make no sense do nothing. */
  ghost predicate Stepped(a: St, act: Act, b: St, result: int) {
    match act
    case New(c, suspended) => if c < |a.cpu| then Created(a, b, c, suspended, result) else b == a
    case Move(d, to) =>
      if d < |a.th| == |a.own| && to < |a.cpu| && d !in a.idle && a.own[d].Run? && a.own[d] != Run(to)
      then HandedOver(a, b, d, to) else b == a
    case Change(d, _, _, _, _, _, _) =>
      if d < |a.th| && d !in a.idle then b == a.(th := a.th[d := Altered(a.th[d], act)]) else b == a
    case Tick(c, now) => if c < |a.cpu| then Ticked(a, b, c, now, result) else b == a
  }

  ghost predicate IsTrace(trace: seq<St>, acts: seq<Act>, results: seq<int>) {
    && |trace| == |acts| + 1 && |results| == |acts| && (forall i: nat | i < |trace| :: Inv(trace[i]))
    && forall i: nat | i < |acts| :: Stepped(trace[i], acts[i], trace[i + 1], results[i])
  }

  lemma TraceOn(trace: seq<St>, acts: seq<Act>, results: seq<int>, act: Act, s: St, r: int)
    requires IsTrace(trace, acts, results) && Inv(s) && Stepped(trace[|acts|], act, s, r)
    ensures IsTrace(trace + [s], acts + [act], results + [r])
  {
    hide Inv, Stepped;
    var t, a, q := trace + [s], acts + [act], results + [r];
    forall i: nat | i < |a|
      ensures Stepped(t[i], a[i], t[i + 1], q[i])
    {
      if i < |acts| {
        assert Stepped(trace[i], acts[i], trace[i + 1], results[i]);
      }
    }
  }

  /** May run: in use, not ended, not suspended and not asleep. */
  predicate MayRun(t: Thread) {
    t.valid && !t.terminated && t.suspended == 0 && t.sleep == 0
  }

  /** Every decision makes a thread of the processor's run list current that may run, and
      none of those that may run there is ahead of it. */
  lemma TickSound(a: St, b: St, c: nat, now: int, w: int)
    requires Ticked(a, b, c, now, w)
    ensures var r := L(b.lists, Run(c));
      && |a.th| == |b.th| && 0 <= w < |b.th| && w in r && MayRun(b.th[w]) && b.cpu[c].current == w
      && (forall d: nat | d < |b.th| && !MayRun(b.th[d]) :: b.cpu[c].current != d)
      && forall d: nat | d in r && d < |b.th| && MayRun(b.th[d]) ::
           a.th[d].prio + a.th[d].boost <= a.th[w].prio + a.th[w].boost
  {
    hide Rev, ReadyOf, Decide, NextRun, AllSteady, OthersRank;
    var r := L(b.lists, Run(c));
    var l := Rev(ReadyOf(b.th, r));
    ListReady(b.th, r, Best(Ranks(a.th, l)));
    OnReady(b.th, r, w);
    forall d: nat | d in r && d < |b.th| && MayRun(b.th[d])
      ensures a.th[d].prio + a.th[d].boost <= a.th[w].prio + a.th[w].boost
    {
      OnReady(b.th, r, d);
      var j: nat :| j < |l| && l[j] == d;
      DecidedAt(a.th, b.th, l, j);
    }
  }

  /** The winner loses its boost, the others that may run gain one up to their maximum,
      and nobody else changes rank. */
  lemma TickBoost(a: St, b: St, c: nat, now: int, w: int, d: nat)
    requires Ticked(a, b, c, now, w) && d < |b.th|
    ensures |a.th| == |b.th| && b.th[d].prio == a.th[d].prio && b.th[d].max == a.th[d].max
    ensures b.th[d].boost == if d == w then 0
                             else if d in L(b.lists, Run(c)) && MayRun(b.th[d]) && a.th[d].boost < a.th[d].max
                               then a.th[d].boost + 1
                             else a.th[d].boost
  {
    hide Rev, ReadyOf, Decide, NextRun, AllSteady, Ranks;
    var r := L(b.lists, Run(c));
    var l := Rev(ReadyOf(b.th, r));
    OnReady(b.th, r, d);
    if d == w {
      DecidedAt(a.th, b.th, l, Best(Ranks(a.th, l)));
    } else if d in l {
      var j: nat :| j < |l| && l[j] == d;
      DecidedAt(a.th, b.th, l, j);
    } else {
      assert RankOf(b.th[d]) == RankOf(a.th[d]);
    }
  }

  lemma OnReady(th: seq<Thread>, r: seq<nat>, d: nat)
    requires InPool(r, |th|) && d < |th|
    ensures d in Rev(ReadyOf(th, r)) <==> d in r && MayRun(th[d])
  {
    ReadyMember(th, r, d);
    RevMember(ReadyOf(th, r), d);
  }

  lemma DecidedAt(a: seq<Thread>, b: seq<Thread>, l: seq<nat>, j: nat)
    requires |a| == |b| && l != [] && InPool(l, |a|) && Ranks(b, l) == Decide(Ranks(a, l)) && j < |l|
    ensures var k := Best(Ranks(a, l));
      && RankOf(b[l[j]]) == (if j == k then RankOf(a[l[j]]).(boost := 0) else Age(RankOf(a[l[j]])))
      && Key(RankOf(a[l[j]])) <= Key(RankOf(a[l[k]]))
  {
    var x := Ranks(a, l);
    assert Ranks(b, l)[j] == Decide(x)[j] && x[j] == RankOf(a[l[j]]) && x[Best(x)] == RankOf(a[l[Best(x)]]);
  }

  predicate Ended(t: Thread) {
    t.terminated && !t.handleOpen
  }

  /** A thread of the run list whose time has passed is awake afterwards, unless the pass
      stopped at its first thread; all other timers, and the other status fields of threads
      that live on, are as they were. */
  lemma TickWake(a: St, b: St, c: nat, now: int, w: int, d: nat)
    requires Ticked(a, b, c, now, w) && d < |b.th| == |a.th| && !Ended(a.th[d])
    ensures var x := L(a.lists, Run(c));
      && x != [] && x[0] < |a.th|
      && (if d in x && !Ended(a.th[x[0]]) && a.th[d].sleep != 0 && a.th[d].sleep < now
          then b.th[d].sleep == 0 else b.th[d].sleep == a.th[d].sleep)
      && b.th[d].valid == a.th[d].valid && b.th[d].suspended == a.th[d].suspended
      && b.th[d].terminated == a.th[d].terminated && b.th[d].handleOpen == a.th[d].handleOpen
  {
    hide Decision, OthersRank, ReadyOf, Rev, Kept;
    assert Steady(a.th[d], b.th[d], now, d in Visited(a.th, L(a.lists, Run(c))));
  }

  /** The run list afterwards: all arrivals, and of the threads that were there all but
      those that have ended and have no open handle. The source stops looking when the
      first thread is one of those. */
  lemma TickRing(a: St, b: St, c: nat, now: int, w: int)
    requires Ticked(a, b, c, now, w)
    ensures var x, y, r := L(a.lists, Run(c)), L(a.lists, Swap(c)), L(b.lists, Run(c));
      && (forall d: nat | d in y :: d in r) && (forall d: nat | d in r :: d in x || d in y)
      && x != [] && x[0] < |a.th| && (forall d: nat | d in x && d < |a.th| && d !in y && d != x[0] ::
            d !in r <==> Ended(a.th[d]) && !Ended(a.th[x[0]]))
  {
    var x, y := L(a.lists, Run(c)), L(a.lists, Swap(c));
    hide Decision, AllSteady, OthersRank, Visited, ReadyOf, Rev, Kept;
    forall d: nat
      ensures d in Rev(y) <==> d in y
      ensures d in Kept(a.th, x) ==> d in x
      ensures d in x && d != x[0] && d < |a.th| ==> (d in Kept(a.th, x) <==> !Dead(a.th[d]) || Dead(a.th[x[0]]))
    {
      RevMember(y, d);
      KeptMember(a.th, x, d);
    }
  }

  lemma KeptMember(th: seq<Thread>, s: seq<nat>, d: nat)
    requires s != [] && forall i: nat | i < |s| :: s[i] < |th|
    ensures d in Kept(th, s) ==> d in s
    ensures d in s && d != s[0] && d < |th| ==> (d in Kept(th, s) <==> !Dead(th[d]) || Dead(th[s[0]]))
  {
    if Dead(th[s[0]]) {
      assert s == [s[0]] + s[1..];
    } else {
      AliveMember(th, s, d);
    }
  }

  lemma {:induction false} AliveMember(th: seq<Thread>, s: seq<nat>, d: nat)
    requires forall i: nat | i < |s| :: s[i] < |th|
    ensures d in Alive(th, s) <==> d in s && !Dead(th[d])
    decreases |s|
  {
    if s != [] {
      var n := |s| - 1;
      AliveMember(th, s[..n], d);
      assert s == s[..n] + [s[n]];
    }
  }

  lemma FirstOnce(s: St, c: nat, i: nat)
    requires Inv(s) && c < |s.cpu| && 0 < i <= |L(s.lists, Run(c))|
    requires L(s.lists, Run(c))[if i == |L(s.lists, Run(c))| then 0 else i] == s.cpu[c].first
    ensures i == |L(s.lists, Run(c))|
  {
    hide Inv, Ring, Stack;
    InvCpu(s, c);
  }

  /** One more thread has been visited. */
  lemma PassOn(t0: seq<Thread>, b: seq<Thread>, n: seq<Thread>, r: seq<nat>, i: nat, now: int)
    requires |t0| == |b| == |n| && i < |r| && InPool(r, |t0|) && Distinct(r)
    requires forall d: nat | d < |b| :: PassedBy(t0[d], b[d], now, d in r[..i])
    requires forall d: nat | d < |b| && d != r[i] :: Same(b[d], n[d])
    requires b[r[i]].valid && PassedBy(b[r[i]], n[r[i]], now, true)
    ensures forall d: nat | d < |n| :: PassedBy(t0[d], n[d], now, d in r[..i + 1])
    ensures Dead(b[r[i]]) == Dead(t0[r[i]])
  {
    assert r[i] !in r[..i];
    assert PassedBy(t0[r[i]], b[r[i]], now, false);
    forall d: nat | d < |n|
      ensures PassedBy(t0[d], n[d], now, d in r[..i + 1])
    {
      assert r[..i + 1] == r[..i] + [r[i]];
      assert PassedBy(t0[d], b[d], now, d in r[..i]);
    }
  }

  /** The list during the pass, at the thread to be visited next. */
  lemma AliveStep(t0: seq<Thread>, r: seq<nat>, i: nat)
    requires 1 <= i < |r| && InPool(r, |t0|) && |Alive(t0, r[..i])| > 0 && Alive(t0, r[..i])[0] == r[0]
    ensures var a, k, l := Alive(t0, r[..i]), |Alive(t0, r[..i])|, Alive(t0, r[..i]) + r[i..];
      && l[k] == r[i] && l[Succ(k, |l|)] == (if i + 1 < |r| then r[i + 1] else r[0])
      && (if Dead(t0[r[i]]) then Without(l, k) else l) == Alive(t0, r[..i + 1]) + r[i + 1..]
      && |Alive(t0, r[..i + 1])| > 0 && Alive(t0, r[..i + 1])[0] == r[0]
  {
    var a, l := Alive(t0, r[..i]), Alive(t0, r[..i]) + r[i..];
    assert r[..i + 1][..i] == r[..i] && r[..i + 1][i] == r[i];
    assert r[i..] == [r[i]] + r[i + 1..];
    assert Without(l, |a|) == a + r[i + 1..];
  }

  /** The run list when the first `i` threads have been visited. */
  ghost predicate InPass(t0: seq<Thread>, r: seq<nat>, i: nat, l: seq<nat>)
    requires 1 <= i <= |r| && InPool(r, |t0|)
  {
    l == Alive(t0, r[..i]) + r[i..] && |Alive(t0, r[..i])| > 0 && Alive(t0, r[..i])[0] == r[0]
  }

  lemma InPassFirst(t0: seq<Thread>, r: seq<nat>)
    requires r != [] && InPool(r, |t0|) && !Dead(t0[r[0]])
    ensures InPass(t0, r, 1, r)
  {
    FirstKept(t0, r);
  }

  lemma InPassLast(t0: seq<Thread>, r: seq<nat>, l: seq<nat>)
    requires r != [] && InPool(r, |t0|) && InPass(t0, r, |r|, l)
    ensures l == Alive(t0, r)
  {
    assert r[..|r|] == r && r[|r|..] == [];
  }

  lemma WholePass(t0: seq<Thread>, r: seq<nat>)
    requires r != [] && InPool(r, |t0|)
    ensures |r| == 1 && !Dead(t0[r[0]]) ==> Alive(t0, r) == r && r[..1] == r
  {
    assert r[..|r| - 1][..0] == [];
    assert |r| == 1 ==> r == [r[0]] && r[..0] == [];
  }

  lemma FirstKept(t0: seq<Thread>, r: seq<nat>)
    requires r != [] && InPool(r, |t0|)
    ensures !Dead(t0[r[0]]) ==> Alive(t0, r[..1]) == [r[0]] && Alive(t0, r[..1]) + r[1..] == r
    ensures Without(r, 0) == r[1..]
  {
    assert r[..1] == [r[0]] && r[..1][..0] == [];
    assert [r[0]] + r[1..] == r;
  }

  lemma SameRefl(a: seq<Thread>)
    ensures forall d: nat | d < |a| :: Same(a[d], a[d])
  {
  }

  /** The lists when `j` threads have been taken over. */
  ghost predicate Drained(a: Lists<Place>, b: Lists<Place>, c: nat, j: nat)
    requires j <= |L(a, Swap(c))|
  {
    var w := L(a, Swap(c));
    && L(b, Swap(c)) == w[j..] && L(b, Run(c)) == Rev(w[..j]) + L(a, Run(c))
    && (forall q: Place | q != Run(c) && q != Swap(c) :: L(b, q) == L(a, q))
  }

  lemma DrainNone(a: Lists<Place>, c: nat)
    ensures Drained(a, a, c, 0) && L(a, Swap(c))[0..] == L(a, Swap(c))
  {
    RevNil();
  }

  lemma DrainAt(a: Lists<Place>, b: Lists<Place>, c: nat, j: nat)
    requires j <= |L(a, Swap(c))| && Drained(a, b, c, j)
    ensures L(b, Swap(c)) == L(a, Swap(c))[j..]
  {
  }

  lemma DrainAll(a: Lists<Place>, b: Lists<Place>, c: nat)
    requires Drained(a, b, c, |L(a, Swap(c))|)
    ensures L(b, Swap(c)) == [] && L(b, Run(c)) == Rev(L(a, Swap(c))) + L(a, Run(c))
    ensures forall q: Place | q != Run(c) && q != Swap(c) :: L(b, q) == L(a, q)
  {
    assert L(a, Swap(c))[..|L(a, Swap(c))|] == L(a, Swap(c));
  }

  lemma DrainStep(a: Lists<Place>, b: Lists<Place>, n: Lists<Place>, c: nat, j: nat)
    requires j < |L(a, Swap(c))| && Drained(a, b, c, j)
    requires L(n, Run(c)) == [L(b, Swap(c))[0]] + L(b, Run(c)) && L(n, Swap(c)) == L(b, Swap(c))[1..]
    requires forall q: Place | q != Run(c) && q != Swap(c) :: L(n, q) == L(b, q)
    ensures Drained(a, n, c, j + 1)
  {
    var w, r := L(a, Swap(c)), L(a, Run(c));
    assert w[j..][0] == w[j] && w[j..][1..] == w[j + 1..];
    assert w[..j + 1] == w[..j] + [w[j]];
    RevSnoc(w[..j], w[j]);
    assert [w[j]] + (Rev(w[..j]) + r) == Rev(w[..j + 1]) + r;
  }

  lemma RevNil()
    ensures Rev([]) == []
  {
  }

  lemma SameAll(a: seq<Thread>, b: seq<Thread>, c: seq<Thread>)
    requires |a| == |b| == |c| && (forall d: nat | d < |a| :: Same(a[d], b[d]))
    requires (forall d: nat | d < |a| :: Same(b[d], c[d]))
    ensures forall d: nat | d < |a| :: Same(a[d], c[d])
  {
  }

  lemma RingOne(th: seq<Thread>, p: nat)
    requires p < |th| && th[p].nextReady == p == th[p].prevReady
    ensures Ring(th, [p] + [], true)
  {
  }

  lemma SameReadyRefl(a: seq<Thread>)
    ensures forall d: nat | d < |a| :: SameButReady(a[d], a[d])
  {
  }

  lemma SameReadyAll(a: seq<Thread>, b: seq<Thread>, c: seq<Thread>)
    requires |a| == |b| == |c| && forall d: nat | d < |a| :: SameButReady(a[d], b[d])
    requires forall d: nat | d < |a| :: SameButReady(b[d], c[d])
    ensures forall d: nat | d < |a| :: SameButReady(a[d], c[d])
  {
  }

  /** The ready list after `i` threads of the run list. */
  ghost predicate InReady(t0: seq<Thread>, r: seq<nat>, i: nat, l: seq<nat>)
    requires i <= |r| && InPool(r, |t0|)
  {
    l == Rev(ReadyOf(t0, r[..i])) && Distinct(l) && InPool(l, |t0|) && forall x | x in l :: x in r[..i]
  }

  lemma InReadyNil(t0: seq<Thread>, r: seq<nat>)
    requires InPool(r, |t0|)
    ensures InReady(t0, r, 0, []) && forall th: seq<Thread> :: Ring(th, [], true)
  {
  }

  lemma InReadyLast(t0: seq<Thread>, r: seq<nat>, l: seq<nat>)
    requires InPool(r, |t0|) && InReady(t0, r, |r|, l)
    ensures l == Rev(ReadyOf(t0, r)) && Distinct(l) && InPool(l, |t0|)
  {
    assert r[..|r|] == r;
  }

  lemma ReadyStep(t0: seq<Thread>, b: seq<Thread>, r: seq<nat>, i: nat, l: seq<nat>)
    requires i < |r| && InPool(r, |t0|) && |b| == |t0| && Distinct(r) && InReady(t0, r, i, l)
    requires forall d: nat | d < |t0| :: SameButReady(t0[d], b[d])
    ensures Ready(b[r[i]]) == Ready(t0[r[i]]) && r[i] !in l && Distinct(l) && InPool(l, |t0|)
    ensures InReady(t0, r, i + 1, if Ready(t0[r[i]]) then [r[i]] + l else l)
  {
    var s := r[..i + 1];
    assert s[..i] == r[..i] && s[i] == r[i] && s == r[..i] + [r[i]];
    assert SameButReady(t0[r[i]], b[r[i]]);
    assert r[i] !in r[..i];
    RevSnoc(ReadyOf(t0, r[..i]), r[i]);
  }

  lemma RunLink(s: St, b: seq<Thread>, c: nat, i: nat)
    requires Inv(s) && c < |s.cpu| && i < |L(s.lists, Run(c))| && |b| == |s.th|
    requires forall d: nat | d < |b| :: SameButReady(s.th[d], b[d])
    ensures var r := L(s.lists, Run(c)); r[i] < |b| && b[r[i]].next == r[Succ(i, |r|)]
  {
    hide Inv;
    RunNext(s, c, i);
    assert SameButReady(s.th[L(s.lists, Run(c))[i]], b[L(s.lists, Run(c))[i]]);
  }

  lemma BestOne(th: seq<Thread>, l: seq<nat>)
    requires l != [] && InPool(l, |th|)
    ensures Best(Ranks(th, l)[..1]) == 0
  {
  }

  lemma BestStep(th: seq<Thread>, l: seq<nat>, i: nat)
    requires 1 <= i < |l| && InPool(l, |th|)
    ensures var r := Ranks(th, l);
      Best(r[..i + 1]) == if Key(r[i]) > Key(r[Best(r[..i])]) then i else Best(r[..i])
  {
    var r := Ranks(th, l);
    assert r[..i + 1][..i] == r[..i];
  }

  lemma Fresh(l: seq<nat>, i: nat)
    requires Distinct(l) && i < |l|
    ensures l[i] !in l[..i] && l[..i + 1] == l[..i] + [l[i]]
  {
  }

  ghost predicate RanksEq(a: seq<Thread>, b: seq<Thread>) {
    |a| == |b| && forall d: nat | d < |a| :: RankOf(a[d]) == RankOf(b[d])
  }

  lemma RanksOf(a: seq<Thread>, b: seq<Thread>, l: seq<nat>)
    requires RanksEq(a, b) && InPool(l, |a|)
    ensures Ranks(a, l) == Ranks(b, l)
  {
  }

  lemma SameRanks(a: seq<Thread>, m: seq<Thread>, b: seq<Thread>)
    requires RanksEq(a, m) && |b| == |a| && forall d: nat | d < |a| :: Same(m[d], b[d])
    ensures RanksEq(a, b)
  {
    forall d: nat | d < |a|
      ensures RankOf(a[d]) == RankOf(b[d])
    {
      assert Same(m[d], b[d]);
    }
  }

  lemma RunInPool(s: St, c: nat)
    requires Inv(s) && c < |s.cpu|
    ensures InPool(L(s.lists, Run(c)), |s.th|)
  {
    hide Inv;
    forall i: nat | i < |L(s.lists, Run(c))|
      ensures L(s.lists, Run(c))[i] < |s.th|
    {
      Member(s, Run(c), i);
    }
  }

  /** Differing only in what a decision may change. */
  predicate Minor(a: Thread, b: Thread) {
    b == a.(boost := b.boost, running := b.running, nextReady := b.nextReady, prevReady := b.prevReady)
  }

  lemma MinorInv(s: St, n: St)
    requires Inv(s) && n.lists == s.lists && n.own == s.own && n.idle == s.idle && |n.th| == |s.th|
    requires |n.cpu| == |s.cpu|
    requires forall c: nat | c < |s.cpu| :: SameCpu(s.cpu[c], n.cpu[c], |s.th|)
    requires forall d: nat | d < |s.th| :: Minor(s.th[d], n.th[d])
    ensures Inv(n)
  {
    PartOf(s);
    forall i: nat | i < |s.th|
      ensures SameLinks(s.th[i], n.th[i]) && n.th[i].valid == s.th[i].valid && n.th[i].cpu == s.th[i].cpu
    {
      assert Minor(s.th[i], n.th[i]);
    }
    forall c: nat | c < |s.idle|
      ensures s.idle[c] < |n.th| && Ready(n.th[s.idle[c]])
    {
      InvCpu(s, c);
      assert Minor(s.th[s.idle[c]], n.th[s.idle[c]]);
    }
    hide Inv;
    FieldsInv(s, n);
  }

  lemma {:induction false} MinorReady(a: seq<Thread>, b: seq<Thread>, r: seq<nat>)
    requires InPool(r, |a|) && |a| == |b| && forall d: nat | d < |a| :: Minor(a[d], b[d])
    ensures ReadyOf(a, r) == ReadyOf(b, r)
  {
    if r != [] {
      MinorReady(a, b, r[..|r| - 1]);
      assert Minor(a[r[|r| - 1]], b[r[|r| - 1]]);
    }
  }

  lemma {:induction false} MinorAlive(a: seq<Thread>, b: seq<Thread>, r: seq<nat>)
    requires InPool(r, |a|) && |a| == |b| && forall d: nat | d < |a| :: Minor(a[d], b[d])
    ensures Alive(a, r) == Alive(b, r)
  {
    if r != [] {
      MinorAlive(a, b, r[..|r| - 1]);
      assert Minor(a[r[|r| - 1]], b[r[|r| - 1]]);
    }
  }

  lemma MinorKept(a: seq<Thread>, b: seq<Thread>, r: seq<nat>)
    requires r != [] && InPool(r, |a|) && |a| == |b| && forall d: nat | d < |a| :: Minor(a[d], b[d])
    ensures Kept(a, r) == Kept(b, r)
  {
    MinorAlive(a, b, r);
    assert Minor(a[r[0]], b[r[0]]);
  }

  lemma ReadyMinor(a: seq<Thread>, b: seq<Thread>)
    requires |a| == |b| && forall d: nat | d < |a| :: SameButReady(a[d], b[d])
    ensures RanksEq(a, b) && forall d: nat | d < |a| :: Minor(a[d], b[d])
  {
    forall d: nat | d < |a|
      ensures RankOf(a[d]) == RankOf(b[d]) && Minor(a[d], b[d])
    {
      assert SameButReady(a[d], b[d]);
    }
  }

  lemma {:induction false} ReadyMember(th: seq<Thread>, s: seq<nat>, x: nat)
    requires InPool(s, |th|)
    ensures x in ReadyOf(th, s) <==> x in s && Ready(th[x])
  {
    if s != [] {
      var n := |s| - 1;
      ReadyMember(th, s[..n], x);
      assert s == s[..n] + [s[n]];
    }
  }

  lemma {:induction false} RevMember(s: seq<nat>, x: nat)
    ensures x in Rev(s) <==> x in s
  {
    if s != [] {
      RevMember(s[1..], x);
      assert s == [s[0]] + s[1..];
    }
  }

  /** The idle thread is always on the ready list. */
  lemma IdleReady(s: St, c: nat, l: seq<nat>)
    requires Inv(s) && c < |s.cpu| && InPool(L(s.lists, Run(c)), |s.th|) && l == Rev(ReadyOf(s.th, L(s.lists, Run(c))))
    ensures l != []
  {
    hide Inv, Rev, ReadyOf;
    InvCpu(s, c);
    var k := IdleIndex(s, c);
    ReadyMember(s.th, L(s.lists, Run(c)), s.idle[c]);
    RevMember(ReadyOf(s.th, L(s.lists, Run(c))), s.idle[c]);
  }

  lemma ListReady(th: seq<Thread>, r: seq<nat>, k: nat)
    requires InPool(r, |th|) && k < |Rev(ReadyOf(th, r))|
    ensures Rev(ReadyOf(th, r))[k] < |th| && Ready(th[Rev(ReadyOf(th, r))[k]])
  {
    hide Rev, ReadyOf;
    var x := Rev(ReadyOf(th, r))[k];
    RevMember(ReadyOf(th, r), x);
    ReadyMember(th, r, x);
  }

  /** All but number `k` have aged. */
  ghost predicate Aging(th: seq<Thread>, l: seq<nat>, k: nat, r: seq<Rank>)
    requires InPool(l, |th|) && |r| == |l|
  {
    forall i: nat | i < |l| :: RankOf(th[l[i]]) == if i == k then r[i] else Age(r[i])
  }

  /** The ranks after the losers have aged. */
  lemma BoostRanks(a: seq<Thread>, b: seq<Thread>, l: seq<nat>, k: nat)
    requires k < |l| && InPool(l, |a|) && Distinct(l) && |a| == |b|
    requires forall d: nat | d < |a| :: b[d] == if d in l && d != l[k] then Aged(a[d]) else a[d]
    ensures Aging(b, l, k, Ranks(a, l))
    ensures forall d: nat | d < |a| :: Minor(a[d], b[d])
  {
    forall i: nat | i < |l|
      ensures RankOf(b[l[i]]) == if i == k then Ranks(a, l)[i] else Age(Ranks(a, l)[i])
    {
      if i != k {
        DistinctAt(l, i, k);
      }
    }
  }

  /** The ranks after the winner has lost its boost. */
  lemma Decided(t0: seq<Thread>, b: seq<Thread>, n: seq<Thread>, l: seq<nat>, k: nat)
    requires k < |l| && InPool(l, |b|) && Distinct(l) && |t0| == |b| == |n| && k == Best(Ranks(t0, l))
    requires Aging(b, l, k, Ranks(t0, l))
    requires n == b[l[k] := b[l[k]].(boost := 0, running := true)]
    ensures Ranks(n, l) == Decide(Ranks(t0, l))
  {
    forall i: nat | i < |l|
      ensures Ranks(n, l)[i] == Decide(Ranks(t0, l))[i]
    {
      if i != k {
        DistinctAt(l, i, k);
      }
    }
  }

  // ----- What a decision leaves alone

  lemma ListInPool(th: seq<Thread>, r: seq<nat>)
    requires InPool(r, |th|)
    ensures InPool(Rev(ReadyOf(th, r)), |th|)
  {
    forall k: nat | k < |Rev(ReadyOf(th, r))|
      ensures Rev(ReadyOf(th, r))[k] < |th|
    {
      ListReady(th, r, k);
    }
  }

  lemma MinorVisited(a: seq<Thread>, b: seq<Thread>, r: seq<nat>)
    requires r != [] && InPool(r, |a|) && |a| == |b| && forall d: nat | d < |a| :: Minor(a[d], b[d])
    ensures InPool(r, |b|) && Visited(b, r) == Visited(a, r)
  {
    assert Minor(a[r[0]], b[r[0]]);
  }

  lemma PassedSteady(a: Thread, b: Thread, now: int, visited: bool)
    requires PassedBy(a, b, now, visited)
    ensures Steady(a, b, now, visited)
  {
  }

  lemma SameSteady(a: seq<Thread>, m: seq<Thread>, b: seq<Thread>, now: int, r: seq<nat>)
    requires AllSteady(a, m, now, r) && |b| == |a| && forall d: nat | d < |a| :: Same(m[d], b[d])
    ensures AllSteady(a, b, now, r)
  {
    forall d: nat | d < |a|
      ensures Steady(a[d], b[d], now, d in r)
    {
      assert Same(m[d], b[d]) && Steady(a[d], m[d], now, d in r);
    }
  }

  lemma MinorSteady(a: seq<Thread>, m: seq<Thread>, b: seq<Thread>, now: int, r: seq<nat>)
    requires AllSteady(a, m, now, r) && |b| == |a| && forall d: nat | d < |a| :: Minor(m[d], b[d])
    ensures AllSteady(a, b, now, r)
  {
    forall d: nat | d < |a|
      ensures Steady(a[d], b[d], now, d in r)
    {
      assert Minor(m[d], b[d]) && Steady(a[d], m[d], now, d in r);
    }
  }

  lemma SteadyMinor(a: seq<Thread>, m: seq<Thread>, b: seq<Thread>, now: int, r: seq<nat>)
    requires AllSteady(m, b, now, r) && |m| == |a| && forall d: nat | d < |a| :: Minor(a[d], m[d])
    ensures AllSteady(a, b, now, r)
  {
    forall d: nat | d < |a|
      ensures Steady(a[d], b[d], now, d in r)
    {
      assert Minor(a[d], m[d]) && Steady(m[d], b[d], now, d in r);
    }
  }

  lemma BoostOthers(t0: seq<Thread>, b: seq<Thread>, e: seq<Thread>, n: seq<Thread>, l: seq<nat>, w: int)
    requires RanksEq(t0, b) && RanksEq(b, e) && |n| == |e|
    requires forall d: nat | d < |e| :: n[d] == if d in l && d != w then Aged(e[d]) else e[d]
    ensures OthersRank(t0, n, l)
  {
  }

  lemma WinnerOthers(t0: seq<Thread>, a: seq<Thread>, b: seq<Thread>, n: seq<Thread>, l: seq<nat>, w: nat)
    requires OthersRank(a, b, l) && |t0| == |a| && RanksEq(t0, a) && w in l && w < |b|
    requires n == b[w := b[w].(boost := 0, running := true)]
    ensures OthersRank(t0, n, l)
  {
  }

  lemma {:induction false} NoneDead(th: seq<Thread>, r: seq<nat>)
    requires forall i: nat | i < |r| :: r[i] < |th| && !Dead(th[r[i]])
    ensures Alive(th, r) == r
  {
    if r != [] {
      NoneDead(th, r[..|r| - 1]);
    }
  }

  lemma RunNext(s: St, c: nat, k: nat)
    requires Inv(s) && c < |s.cpu| && k < |L(s.lists, Run(c))|
    ensures var r := L(s.lists, Run(c)); r[k] < |s.th| && s.th[r[k]].next == r[Succ(k, |r|)]
  {
    hide Inv, Stack;
    InvCpu(s, c);
    RingAt(s.th, L(s.lists, Run(c)), false, k);
  }

  lemma WakeInv(s: St, p: nat, now: int)
    requires Inv(s) && p < |s.th|
    ensures Inv(s.(th := s.th[p := Wake(s.th[p], now)]))
  {
    var n := s.(th := s.th[p := Wake(s.th[p], now)]);
    PartOf(s);
    forall c: nat | c < |s.idle|
      ensures s.idle[c] < |n.th| && Ready(n.th[s.idle[c]])
    {
      InvCpu(s, c);
    }
    hide Inv;
    FieldsInv(s, n);
  }

  lemma DeadNotIdle(s: St, c: nat, d: nat)
    requires Inv(s) && c < |s.cpu| && d < |s.th| && Dead(s.th[d])
    ensures |s.idle| == |s.cpu| && s.idle[c] != d
  {
    hide Inv;
    InvCpu(s, c);
  }

  lemma MigrateLists(s: St, c: nat, k: nat, to: nat)
    requires Inv(s) && CanMigrate(s, c, k, to)
    ensures var d, n := L(s.lists, Run(c))[k], MoveAt(s.lists, Run(c), k, Swap(to));
      && L(n, Swap(to)) == [d] + L(s.lists, Swap(to)) && d !in L(n, Run(c))
      && (forall p: Place | p != Swap(to) && p != Run(c) :: L(n, p) == L(s.lists, p))
  {
    hide Inv, MoveAt, Without;
    MoveAtAre(s.lists, Run(c), k, Swap(to));
    InvCpu(s, c);
    RemovedGone(L(s.lists, Run(c)), k);
  }

  lemma LinkSame(a: seq<Thread>, first: int, last: int, d: int)
    requires 0 <= d < |a| && 0 <= first < |a| && 0 <= last < |a|
    ensures forall i: nat | i < |a| :: Same(a[i], LinkFront(a, first, last, d, false)[i])
  {
    hide LinkFront;
    forall i: nat | i < |a|
      ensures Same(a[i], LinkFront(a, first, last, d, false)[i])
    {
      LinkFields(a, first, last, d, i);
    }
  }

  /** Migration touches the links of other threads at most. */
  lemma MigrateRest(s: St, c: nat, k: nat, to: nat)
    requires Inv(s) && CanMigrate(s, c, k, to)
    ensures var n, d := MigrateS(s, c, k, to), L(s.lists, Run(c))[k];
      && |n.th| == |s.th| && |n.cpu| == |s.cpu| && d < |s.th| && Same(s.th[d].(cpu := to), n.th[d])
      && (forall i: nat | i < |s.th| && i != d :: Same(s.th[i], n.th[i]))
      && (forall e: nat | e < |s.cpu| :: n.cpu[e].current == s.cpu[e].current)
  {
    hide Inv, Unlink, Push, MoveAt;
    DetachOk(s, c, k);
    SwapTop(s, to);
    var d := L(s.lists, Run(c))[k];
    var u := Unlink(s.th, d);
    forall i: nat | i < |s.th|
      ensures Same(s.th[i], Push(u, s.cpu[to].firstSwap, d)[i])
    {
      UnlinkFields(s.th, d, i);
      PushFields(u, s.cpu[to].firstSwap, d, i);
    }
  }

  lemma UnusedAt(s: St, d: nat) returns (k: nat)
    requires Inv(s) && d < |s.th| && !s.th[d].valid
    ensures k < |L(s.lists, Unused)| && L(s.lists, Unused)[k] == d
  {
    InvTh(s, d);
    PartOf(s);
    hide Inv;
    PartCover(s.lists, s.own, d);
    k :| k < |L(s.lists, Unused)| && L(s.lists, Unused)[k] == d;
  }

  lemma RunAt(s: St, d: nat) returns (k: nat)
    requires Inv(s) && d < |s.th| == |s.own| && s.own[d].Run?
    ensures k < |L(s.lists, s.own[d])| && L(s.lists, s.own[d])[k] == d
  {
    PartOf(s);
    hide Inv;
    PartCover(s.lists, s.own, d);
    k :| k < |L(s.lists, s.own[d])| && L(s.lists, s.own[d])[k] == d;
  }
}
