/** Creating, migrating, taking over and reaping a thread: each keeps every
    processor's lists well formed and every live thread on exactly one of them. */
module SchedSteps {
  import opened PlaceLists
  import opened SchedState

  predicate Ready(t: Thread) {
    !t.terminated && t.suspended == 0 && t.sleep == 0 && t.valid
  }

  /** The scheduler frees a thread that has ended and has no open handle. */
  predicate Dead(t: Thread) {
    t.terminated && !t.handleOpen
  }

  ghost predicate CpuOk(th: seq<Thread>, lists: Lists<Place>, x: Cpu, c: nat) {
    var s, w := L(lists, Run(c)), L(lists, Swap(c));
    && s != [] && Ring(th, s, false) && x.first == s[0] && x.last == s[|s| - 1]
    && Stack(th, w) && x.firstSwap == First(w) && x.lastSwap == NIL && 0 <= x.current < |th|
  }

  /** A live thread names the processor whose list it is on. */
  predicate ThOk(t: Thread, p: Place, ncpu: nat) {
    if p.Unused? then !t.valid else t.valid && p.c < ncpu && t.cpu == p.c
  }

  ghost predicate IdleOk(s: St, c: nat)
    requires c < |s.idle| && |s.own| == |s.th|
  {
    s.idle[c] < |s.th| && s.own[s.idle[c]] == Run(c) && Ready(s.th[s.idle[c]])
  }

  ghost predicate Inv(s: St) {
    && |s.own| == |s.th| && |s.idle| == |s.cpu| && Part(s.lists, s.own)
    && (forall c: nat | c < |s.cpu| :: CpuOk(s.th, s.lists, s.cpu[c], c))
    && (forall d: nat | d < |s.th| :: ThOk(s.th[d], s.own[d], |s.cpu|))
    && (forall c: nat | c < |s.cpu| :: IdleOk(s, c))
  }

  // ----- Reading the invariant

  lemma InvCpu(s: St, c: nat)
    requires Inv(s) && c < |s.cpu|
    ensures |s.own| == |s.th| && |s.idle| == |s.cpu|
    ensures CpuOk(s.th, s.lists, s.cpu[c], c) && IdleOk(s, c)
    ensures Distinct(L(s.lists, Run(c))) && Distinct(L(s.lists, Swap(c)))
  {
    hide CpuOk, ThOk, IdleOk;
  }

  lemma InvTh(s: St, d: nat)
    requires Inv(s) && d < |s.th|
    ensures |s.own| == |s.th| && ThOk(s.th[d], s.own[d], |s.cpu|)
  {
  }

  lemma Member(s: St, p: Place, k: nat)
    requires Inv(s) && k < |L(s.lists, p)|
    ensures |s.own| == |s.th| && L(s.lists, p)[k] < |s.th| && s.own[L(s.lists, p)[k]] == p
  {
    hide CpuOk, ThOk, IdleOk;
    PartAt(s.lists, s.own, p, k);
  }

  lemma NotMember(s: St, p: Place, d: nat)
    requires Inv(s) && d < |s.th| && |s.own| == |s.th| && s.own[d] != p
    ensures d !in L(s.lists, p)
  {
    hide CpuOk, ThOk, IdleOk;
  }

  lemma IdleIndex(s: St, c: nat) returns (k: nat)
    requires Inv(s) && c < |s.cpu|
    ensures k < |L(s.lists, Run(c))| && |s.idle| == |s.cpu| && L(s.lists, Run(c))[k] == s.idle[c]
  {
    InvCpu(s, c);
    hide CpuOk, ThOk;
    PartCover(s.lists, s.own, s.idle[c]);
    k :| k < |L(s.lists, Run(c))| && L(s.lists, Run(c))[k] == s.idle[c];
  }

  // ----- Putting it back together

  /** Only links of threads in the places `p`, `q` and of `d` may differ. */
  ghost predicate Touches(s: St, n: St, p: Place, q: Place, d: nat) {
    && |n.th| == |s.th| == |s.own| && |n.cpu| == |s.cpu| && n.idle == s.idle
    && (forall i: nat | i < |s.th| && i != d && s.own[i] != p && s.own[i] != q :: n.th[i] == s.th[i])
    && (forall i: nat | i < |s.th| && i != d ::
          n.th[i] == s.th[i].(next := n.th[i].next, prev := n.th[i].prev))
  }

  lemma CpuKept(s: St, n: St, p: Place, q: Place, d: nat, c: nat)
    requires Inv(s) && Touches(s, n, p, q, d) && d < |s.th| && c < |s.cpu|
    requires p != Run(c) && p != Swap(c) && q != Run(c) && q != Swap(c) && s.own[d] != Run(c) && s.own[d] != Swap(c)
    requires L(n.lists, Run(c)) == L(s.lists, Run(c)) && L(n.lists, Swap(c)) == L(s.lists, Swap(c))
    requires n.cpu[c] == s.cpu[c]
    ensures CpuOk(n.th, n.lists, n.cpu[c], c)
  {
    hide Inv;
    InvCpu(s, c);
    RunKept(s, n, p, q, d, Run(c));
    RunKept(s, n, p, q, d, Swap(c));
    RingFrame(s.th, n.th, L(s.lists, Run(c)));
    StackFrame(s.th, n.th, L(s.lists, Swap(c)));
  }

  lemma RunKept(s: St, n: St, p: Place, q: Place, d: nat, r: Place)
    requires Inv(s) && Touches(s, n, p, q, d) && d < |s.th| && p != r && q != r && s.own[d] != r
    ensures forall i: nat | i < |s.th| && i in L(s.lists, r) :: SameLinks(s.th[i], n.th[i])
  {
    forall i: nat | i < |s.th| && i in L(s.lists, r)
      ensures SameLinks(s.th[i], n.th[i])
    {
      if s.own[i] != r {
        NotMember(s, r, i);
      }
    }
  }

  /** `d` has moved to `q` and its record agrees; it is no idle thread. */
  lemma Rebuild(s: St, n: St, p: Place, q: Place, d: nat)
    requires Inv(s) && Touches(s, n, p, q, d) && d < |s.th| && n.own == s.own[d := q] && Part(n.lists, n.own)
    requires ThOk(n.th[d], q, |s.cpu|) && forall c: nat | c < |s.idle| :: s.idle[c] != d
    requires forall c: nat | c < |n.cpu| :: CpuOk(n.th, n.lists, n.cpu[c], c)
    ensures Inv(n)
  {
    hide CpuOk, Part;
    forall i: nat | i < |n.th|
      ensures ThOk(n.th[i], n.own[i], |n.cpu|)
    {
      assert ThOk(s.th[i], s.own[i], |s.cpu|);
    }
    forall c: nat | c < |n.cpu|
      ensures IdleOk(n, c)
    {
      assert IdleOk(s, c);
    }
  }

  // ----- Taking a thread off a run list

  function Detached(x: Cpu, d: int, t: Thread): Cpu {
    x.(first := if x.first == d then t.next else x.first, last := if x.last == d then t.prev else x.last)
  }

  /** What unlinking number `k` leaves on the processor it was on. */
  lemma DetachOk(s: St, c: nat, k: nat)
    requires Inv(s) && c < |s.cpu| && k < |L(s.lists, Run(c))| && L(s.lists, Run(c))[k] != s.idle[c]
    ensures var r, d := L(s.lists, Run(c)), L(s.lists, Run(c))[k];
      && |r| >= 2 && d < |s.th| == |s.own| && s.own[d] == Run(c)
      && 0 <= s.th[d].next < |s.th| && 0 <= s.th[d].prev < |s.th|
      && var u, x, w := Unlink(s.th, d), Detached(s.cpu[c], d, s.th[d]), Without(r, k);
      && Ring(u, w, false) && x.first == w[0] && x.last == w[|w| - 1] && u[d] == s.th[d]
      && s.th[d].next == r[Succ(k, |r|)]
  {
    hide Inv, Ring, Stack, Unlink, Distinct, Without;
    var r := L(s.lists, Run(c));
    var j := IdleIndex(s, c);
    InvCpu(s, c);
    Member(s, Run(c), k);
    RingRemove(s.th, r, k);
    RingAt(s.th, r, false, k);
    WithoutEnds(r, k);
    if k > 0 {
      DistinctAt(r, 0, k);
    }
    if k < |r| - 1 {
      DistinctAt(r, |r| - 1, k);
    }
  }

  lemma WithoutEnds(r: seq<nat>, k: nat)
    requires k < |r| && |r| >= 2
    ensures |Without(r, k)| == |r| - 1 && Without(r, k)[0] == r[if k == 0 then 1 else 0]
    ensures Without(r, k)[|r| - 2] == r[if k == |r| - 1 then |r| - 2 else |r| - 1]
  {
  }

  lemma UnlinkFields(th: seq<Thread>, d: int, i: int)
    requires 0 <= d < |th| && 0 <= th[d].next < |th| && 0 <= th[d].prev < |th| && 0 <= i < |th|
    ensures Unlink(th, d)[i] == th[i].(next := Unlink(th, d)[i].next, prev := Unlink(th, d)[i].prev)
  {
  }

  lemma UnlinkTouches(s: St, c: nat, k: nat)
    requires Inv(s) && c < |s.cpu| && k < |L(s.lists, Run(c))| && L(s.lists, Run(c))[k] != s.idle[c]
    ensures var d := L(s.lists, Run(c))[k];
      && d < |s.th| == |s.own| && 0 <= s.th[d].next < |s.th| && 0 <= s.th[d].prev < |s.th|
      && var u := Unlink(s.th, d);
      && (forall i: nat | i < |s.th| && s.own[i] != Run(c) :: u[i] == s.th[i])
      && (forall i: nat | i < |s.th| :: u[i] == s.th[i].(next := u[i].next, prev := u[i].prev))
  {
    hide Inv;
    DetachOk(s, c, k);
    var r, d := L(s.lists, Run(c)), L(s.lists, Run(c))[k];
    InvCpu(s, c);
    RingRemove(s.th, r, k);
    forall i: nat | i < |s.th| && s.own[i] != Run(c)
      ensures Unlink(s.th, d)[i] == s.th[i]
    {
      NotMember(s, Run(c), i);
    }
    forall i: nat | i < |s.th|
      ensures Unlink(s.th, d)[i] == s.th[i].(next := Unlink(s.th, d)[i].next, prev := Unlink(s.th, d)[i].prev)
    {
      UnlinkFields(s.th, d, i);
    }
  }

  lemma NotIdle(s: St, c: nat, d: nat)
    requires Inv(s) && c < |s.cpu| && |s.idle| == |s.cpu| && d < |s.th| == |s.own| && s.own[d] == Run(c)
    requires d != s.idle[c]
    ensures forall e: nat | e < |s.idle| :: s.idle[e] != d
  {
    forall e: nat | e < |s.idle|
      ensures s.idle[e] != d
    {
      InvCpu(s, e);
    }
  }

  // ----- Reaping

  ghost function ReapS(s: St, c: nat, k: nat): St
    requires Inv(s) && c < |s.cpu| && k < |L(s.lists, Run(c))| && L(s.lists, Run(c))[k] != s.idle[c]
  {
    DetachOk(s, c, k);
    var d := L(s.lists, Run(c))[k];
    var u := Unlink(s.th, d);
    s.(th := u[d := u[d].(valid := false)], cpu := s.cpu[c := Detached(s.cpu[c], d, s.th[d])],
       lists := MoveAt(s.lists, Run(c), k, Unused), own := s.own[d := Unused])
  }

  lemma ReapInv(s: St, c: nat, k: nat)
    requires Inv(s) && c < |s.cpu| && k < |L(s.lists, Run(c))| && L(s.lists, Run(c))[k] != s.idle[c]
    ensures Inv(ReapS(s, c, k))
  {
    hide Inv, Unlink, CpuOk, Ring, Stack, MoveAt;
    DetachOk(s, c, k);
    var d, n := L(s.lists, Run(c))[k], ReapS(s, c, k);
    assert Touches(s, n, Run(c), Run(c), d) by {
      UnlinkTouches(s, c, k);
    }
    hide Touches;
    PartOf(s);
    NotIdle(s, c, d);
    MoveAtPart(s.lists, s.own, Run(c), k, Unused);
    MoveAtAre(s.lists, Run(c), k, Unused);
    forall e: nat | e < |n.cpu|
      ensures CpuOk(n.th, n.lists, n.cpu[e], e)
    {
      if e != c {
        CpuKept(s, n, Run(c), Run(c), d, e);
      } else {
        RunKept(s, n, Run(c), Run(c), d, Swap(c));
        DetachCpu(s, n, c, k);
      }
    }
    Rebuild(s, n, Run(c), Unused, d);
  }

  lemma MoveAtAre(lists: Lists<Place>, p: Place, k: nat, q: Place)
    requires k < |L(lists, p)| && p != q
    ensures var n := MoveAt(lists, p, k, q);
      && L(n, p) == Without(L(lists, p), k) && L(n, q) == [L(lists, p)[k]] + L(lists, q)
      && forall r: Place | r != p && r != q :: L(n, r) == L(lists, r)
  {
  }

  /** The processor a thread was unlinked from. */
  lemma DetachCpu(s: St, n: St, c: nat, k: nat)
    requires Inv(s) && c < |s.cpu| && k < |L(s.lists, Run(c))| && L(s.lists, Run(c))[k] != s.idle[c]
    requires var d := L(s.lists, Run(c))[k]; d < |s.th| && 0 <= s.th[d].next < |s.th| && 0 <= s.th[d].prev < |s.th|
    requires var r, d := L(s.lists, Run(c)), L(s.lists, Run(c))[k];
      && |n.th| == |s.th| && |n.cpu| == |s.cpu| && n.cpu[c] == Detached(s.cpu[c], d, s.th[d])
      && L(n.lists, Run(c)) == Without(r, k) && L(n.lists, Swap(c)) == L(s.lists, Swap(c))
      && (forall i: nat | i < |s.th| && i in r && i != d :: SameLinks(Unlink(s.th, d)[i], n.th[i]))
      && (forall i: nat | i < |s.th| && i in L(s.lists, Swap(c)) :: SameLinks(s.th[i], n.th[i]))
    ensures CpuOk(n.th, n.lists, n.cpu[c], c)
  {
    hide Inv, Unlink, Ring, Stack, Without;
    var r, d := L(s.lists, Run(c)), L(s.lists, Run(c))[k];
    InvCpu(s, c);
    DetachOk(s, c, k);
    RemovedGone(r, k);
    forall i: nat | i < |s.th| && i in Without(r, k)
      ensures SameLinks(Unlink(s.th, d)[i], n.th[i])
    {
      WithoutSub(r, k, i);
    }
    StackFrame(s.th, n.th, L(s.lists, Swap(c)));
    RingFrame(Unlink(s.th, d), n.th, Without(r, k));
    WithoutEnds(r, k);
  }

  lemma WithoutSub(r: seq<nat>, k: nat, i: nat)
    requires k < |r| && i in Without(r, k)
    ensures i in r
  {
  }

  lemma RemovedGone(r: seq<nat>, k: nat)
    requires Distinct(r) && k < |r|
    ensures r[k] !in Without(r, k)
  {
  }

  lemma PartOf(s: St)
    requires Inv(s)
    ensures Part(s.lists, s.own) && |s.own| == |s.th| && |s.idle| == |s.cpu|
  {
  }

  // ----- Migrating

  ghost predicate CanMigrate(s: St, c: nat, k: nat, to: nat) {
    c < |s.cpu| == |s.idle| && to < |s.cpu| && c != to && k < |L(s.lists, Run(c))| && L(s.lists, Run(c))[k] != s.idle[c]
  }

  lemma SwapTop(s: St, c: nat)
    requires Inv(s) && c < |s.cpu|
    ensures s.cpu[c].firstSwap == First(L(s.lists, Swap(c))) && s.cpu[c].lastSwap == NIL
    ensures s.cpu[c].firstSwap == NIL || 0 <= s.cpu[c].firstSwap < |s.th|
  {
    InvCpu(s, c);
    if L(s.lists, Swap(c)) != [] {
      Member(s, Swap(c), 0);
    }
  }

  ghost function MigrateS(s: St, c: nat, k: nat, to: nat): St
    requires Inv(s) && CanMigrate(s, c, k, to)
  {
    DetachOk(s, c, k);
    SwapTop(s, to);
    var d := L(s.lists, Run(c))[k];
    var u := Push(Unlink(s.th, d), s.cpu[to].firstSwap, d);
    s.(th := u[d := u[d].(cpu := to)],
       cpu := s.cpu[c := Detached(s.cpu[c], d, s.th[d])][to := s.cpu[to].(firstSwap := d)],
       lists := MoveAt(s.lists, Run(c), k, Swap(to)), own := s.own[d := Swap(to)])
  }

  lemma PushFields(th: seq<Thread>, top: int, d: int, i: int)
    requires 0 <= d < |th| && (top == NIL || 0 <= top < |th|) && 0 <= i < |th|
    ensures Push(th, top, d)[i] == th[i].(next := Push(th, top, d)[i].next, prev := Push(th, top, d)[i].prev)
  {
  }

  lemma MigrateTouches(s: St, c: nat, k: nat, to: nat)
    requires Inv(s) && CanMigrate(s, c, k, to)
    ensures Touches(s, MigrateS(s, c, k, to), Run(c), Swap(to), L(s.lists, Run(c))[k])
  {
    hide Inv, Unlink, Push, CpuOk, MoveAt;
    DetachOk(s, c, k);
    UnlinkTouches(s, c, k);
    SwapTop(s, to);
    var d, n, u := L(s.lists, Run(c))[k], MigrateS(s, c, k, to), Unlink(s.th, L(s.lists, Run(c))[k]);
    var top := s.cpu[to].firstSwap;
    if top != NIL {
      Member(s, Swap(to), 0);
    }
    forall i: nat | i < |s.th| && i != d
      ensures s.own[i] != Run(c) && s.own[i] != Swap(to) ==> n.th[i] == s.th[i]
      ensures n.th[i] == s.th[i].(next := n.th[i].next, prev := n.th[i].prev)
    {
      PushAt(u, top, d, i);
      PushFields(u, top, d, i);
    }
  }

  /** The processor a thread is sent to. */
  lemma PushCpu(s: St, c: nat, k: nat, to: nat)
    requires Inv(s) && CanMigrate(s, c, k, to)
    ensures var n := MigrateS(s, c, k, to); CpuOk(n.th, n.lists, n.cpu[to], to)
  {
    hide Inv, Unlink, Push, MoveAt, Ring, Stack;
    DetachOk(s, c, k);
    UnlinkTouches(s, c, k);
    MigrateTouches(s, c, k, to);
    SwapTop(s, to);
    InvCpu(s, to);
    var d, n, u := L(s.lists, Run(c))[k], MigrateS(s, c, k, to), Unlink(s.th, L(s.lists, Run(c))[k]);
    var w := L(s.lists, Swap(to));
    MoveAtAre(s.lists, Run(c), k, Swap(to));
    NotMember(s, Swap(to), d);
    forall i: nat | i < |s.th| && i in w
      ensures SameLinks(s.th[i], u[i])
    {
      if s.own[i] != Swap(to) {
        NotMember(s, Swap(to), i);
      }
    }
    StackFrame(s.th, u, w);
    StackPush(u, w, d);
    StackFrame(Push(u, s.cpu[to].firstSwap, d), n.th, [d] + w);
    RunKept(s, n, Run(c), Swap(to), d, Run(to));
    RingFrame(s.th, n.th, L(s.lists, Run(to)));
  }

  lemma MigrateInv(s: St, c: nat, k: nat, to: nat)
    requires Inv(s) && CanMigrate(s, c, k, to)
    ensures Inv(MigrateS(s, c, k, to))
  {
    hide Inv, Unlink, Push, CpuOk, Ring, Stack, MoveAt, Touches, ThOk;
    DetachOk(s, c, k);
    MigrateTouches(s, c, k, to);
    PushCpu(s, c, k, to);
    MigratedThread(s, c, k, to);
    var d, n := L(s.lists, Run(c))[k], MigrateS(s, c, k, to);
    PartOf(s);
    NotIdle(s, c, d);
    MoveAtPart(s.lists, s.own, Run(c), k, Swap(to));
    MoveAtAre(s.lists, Run(c), k, Swap(to));
    forall e: nat | e < |n.cpu|
      ensures CpuOk(n.th, n.lists, n.cpu[e], e)
    {
      if e == c {
        MigratedFrom(s, c, k, to);
      } else if e != to {
        CpuKept(s, n, Run(c), Swap(to), d, e);
      }
    }
    Rebuild(s, n, Run(c), Swap(to), d);
  }

  lemma MigratedThread(s: St, c: nat, k: nat, to: nat)
    requires Inv(s) && CanMigrate(s, c, k, to)
    ensures L(s.lists, Run(c))[k] < |s.th|
    ensures ThOk(MigrateS(s, c, k, to).th[L(s.lists, Run(c))[k]], Swap(to), |s.cpu|)
  {
    hide Inv, Unlink, Push, CpuOk, Ring, Stack, MoveAt;
    DetachOk(s, c, k);
    SwapTop(s, to);
    var d := L(s.lists, Run(c))[k];
    InvTh(s, d);
    PushFields(Unlink(s.th, d), s.cpu[to].firstSwap, d, d);
  }

  lemma MigratedFrom(s: St, c: nat, k: nat, to: nat)
    requires Inv(s) && CanMigrate(s, c, k, to)
    ensures var n := MigrateS(s, c, k, to); CpuOk(n.th, n.lists, n.cpu[c], c)
  {
    hide Inv, Unlink, Push, CpuOk, Ring, Stack, MoveAt;
    DetachOk(s, c, k);
    MigrateTouches(s, c, k, to);
    SwapTop(s, to);
    var d, n, u := L(s.lists, Run(c))[k], MigrateS(s, c, k, to), Unlink(s.th, L(s.lists, Run(c))[k]);
    var top := s.cpu[to].firstSwap;
    if top != NIL {
      Member(s, Swap(to), 0);
    }
    MoveAtAre(s.lists, Run(c), k, Swap(to));
    RunKept(s, n, Run(c), Swap(to), d, Swap(c));
    forall i: nat | i < |s.th| && i in L(s.lists, Run(c)) && i != d
      ensures SameLinks(u[i], n.th[i])
    {
      if i == top {
        NotMember(s, Run(c), i);
      }
      PushAt(u, top, d, i);
    }
    DetachCpu(s, n, c, k);
  }

  // ----- Putting a thread on a run list

  lemma Ends(s: St, c: nat)
    requires Inv(s) && c < |s.cpu|
    ensures var r, x := L(s.lists, Run(c)), s.cpu[c];
      r != [] && x.first == r[0] && x.last == r[|r| - 1] && 0 <= x.first < |s.th| == |s.own| && 0 <= x.last < |s.th|
      && s.own[x.first] == Run(c) && s.own[x.last] == Run(c) && 0 <= x.current < |s.th|
  {
    hide Inv, Ring, Stack;
    InvCpu(s, c);
    Member(s, Run(c), 0);
    Member(s, Run(c), |L(s.lists, Run(c))| - 1);
  }

  lemma LinkFields(th: seq<Thread>, first: int, last: int, d: int, i: int)
    requires 0 <= d < |th| && 0 <= first < |th| && 0 <= last < |th| && 0 <= i < |th|
    ensures var r := LinkFront(th, first, last, d, false); r[i] == th[i].(next := r[i].next, prev := r[i].prev)
  {
  }

  /** Links `d`, which is on no list of processor `c`, in front of its run list,
      starting from records `a` that agree with the state's links there. */
  lemma LinkedIn(s: St, a: seq<Thread>, c: nat, d: nat)
    requires Inv(s) && c < |s.cpu| && d < |s.th| == |a| && |s.own| == |s.th| && s.own[d] != Run(c)
    requires forall i: nat | i < |s.th| && s.own[i] == Run(c) :: SameLinks(s.th[i], a[i])
    ensures var r, x := L(s.lists, Run(c)), s.cpu[c];
      && 0 <= x.first < |a| && 0 <= x.last < |a| && r != []
      && var n := LinkFront(a, x.first, x.last, d, false);
      && Ring(n, [d] + r, false) && ([d] + r)[|r|] == x.last
      && (forall i: nat | i < |a| && i != d && s.own[i] != Run(c) :: n[i] == a[i])
      && (forall i: nat | i < |a| :: n[i] == a[i].(next := n[i].next, prev := n[i].prev))
  {
    hide Inv, Ring, Stack, LinkFront;
    Ends(s, c);
    InvCpu(s, c);
    var r, x := L(s.lists, Run(c)), s.cpu[c];
    NotMember(s, Run(c), d);
    forall i: nat | i < |s.th| && i in r
      ensures SameLinks(s.th[i], a[i])
    {
      if s.own[i] != Run(c) {
        NotMember(s, Run(c), i);
      }
    }
    RingFrame(s.th, a, r);
    RingInsert(a, r, d, false);
    forall i: nat | i < |a|
      ensures var n := LinkFront(a, x.first, x.last, d, false);
        && (i != d && s.own[i] != Run(c) ==> n[i] == a[i])
        && n[i] == a[i].(next := n[i].next, prev := n[i].prev)
    {
      LinkFrontAt(a, x.first, x.last, d, false, i);
      LinkFields(a, x.first, x.last, d, i);
    }
  }

  // ----- Taking over from the pending stack

  ghost function TakeOverS(s: St, c: nat): St
    requires Inv(s) && c < |s.cpu| && L(s.lists, Swap(c)) != []
  {
    PopOk(s, c);
    Ends(s, c);
    var d := L(s.lists, Swap(c))[0];
    s.(th := LinkFront(Pop(s.th, d), s.cpu[c].first, s.cpu[c].last, d, false),
       cpu := s.cpu[c := s.cpu[c].(firstSwap := s.th[d].next, first := d)],
       lists := MoveFront(s.lists, Swap(c), Run(c)), own := s.own[d := Run(c)])
  }

  lemma PopFields(th: seq<Thread>, d: int, i: int)
    requires 0 <= d < |th| && (th[d].next == NIL || 0 <= th[d].next < |th|) && 0 <= i < |th|
    ensures Pop(th, d)[i] == th[i].(next := Pop(th, d)[i].next, prev := Pop(th, d)[i].prev)
  {
  }

  lemma PopOk(s: St, c: nat)
    requires Inv(s) && c < |s.cpu| && L(s.lists, Swap(c)) != []
    ensures var w, d := L(s.lists, Swap(c)), L(s.lists, Swap(c))[0];
      && d < |s.th| == |s.own| && s.own[d] == Swap(c) && s.th[d].next == First(w[1..]) && s.th[d].prev == NIL
      && s.th[d].next != d
      && (s.th[d].next == NIL || 0 <= s.th[d].next < |s.th|) && s.cpu[c].firstSwap == d
      && var u := Pop(s.th, d);
      && Stack(u, w[1..]) && (forall i: nat | i < |s.th| && s.own[i] != Swap(c) :: u[i] == s.th[i])
      && (forall i: nat | i < |s.th| :: u[i] == s.th[i].(next := u[i].next, prev := u[i].prev))
  {
    hide Inv, Ring, Stack, Pop;
    InvCpu(s, c);
    var w := L(s.lists, Swap(c));
    Member(s, Swap(c), 0);
    StackPop(s.th, w);
    if |w| > 1 {
      DistinctAt(w, 0, 1);
    }
    forall i: nat | i < |s.th|
      ensures var u := Pop(s.th, w[0]);
        && (s.own[i] != Swap(c) ==> u[i] == s.th[i])
        && u[i] == s.th[i].(next := u[i].next, prev := u[i].prev)
    {
      PopFields(s.th, w[0], i);
      if s.own[i] != Swap(c) {
        NotMember(s, Swap(c), i);
      }
    }
  }

  lemma TakeOverInv(s: St, c: nat)
    requires Inv(s) && c < |s.cpu| && L(s.lists, Swap(c)) != []
    ensures Inv(TakeOverS(s, c))
  {
    hide Inv, Ring, Stack, Pop, LinkFront, CpuOk;
    PopOk(s, c);
    Ends(s, c);
    PartOf(s);
    var w, d, n := L(s.lists, Swap(c)), L(s.lists, Swap(c))[0], TakeOverS(s, c);
    LinkedIn(s, Pop(s.th, d), c, d);
    InvTh(s, d);
    MoveFrontPart(s.lists, s.own, Swap(c), Run(c));
    assert Touches(s, n, Run(c), Swap(c), d);
    assert forall e: nat | e < |s.idle| :: s.idle[e] != d by {
      PendingNotIdle(s, d);
    }
    forall e: nat | e < |n.cpu|
      ensures CpuOk(n.th, n.lists, n.cpu[e], e)
    {
      if e != c {
        CpuKept(s, n, Run(c), Swap(c), d, e);
      } else {
        TakeOverCpu(s, c);
      }
    }
    Rebuild(s, n, Swap(c), Run(c), d);
  }

  lemma PendingNotIdle(s: St, d: nat)
    requires Inv(s) && d < |s.th| == |s.own| && !s.own[d].Run?
    ensures forall e: nat | e < |s.idle| :: s.idle[e] != d
  {
    forall e: nat | e < |s.idle|
      ensures s.idle[e] != d
    {
      InvCpu(s, e);
    }
  }

  lemma TakeOverCpu(s: St, c: nat)
    requires Inv(s) && c < |s.cpu| && L(s.lists, Swap(c)) != []
    ensures var n := TakeOverS(s, c); CpuOk(n.th, n.lists, n.cpu[c], c)
  {
    hide Inv, Ring, Stack, Pop, LinkFront;
    PopOk(s, c);
    Ends(s, c);
    InvCpu(s, c);
    var w, d, n := L(s.lists, Swap(c)), L(s.lists, Swap(c))[0], TakeOverS(s, c);
    LinkedIn(s, Pop(s.th, d), c, d);
    assert L(n.lists, Run(c)) == [d] + L(s.lists, Run(c)) && L(n.lists, Swap(c)) == w[1..];
    forall i: nat | i < |s.th| && i in w[1..]
      ensures SameLinks(Pop(s.th, d)[i], n.th[i])
    {
      if s.own[i] != Swap(c) {
        NotMember(s, Swap(c), i);
      }
      HeadGone(w);
    }
    StackFrame(Pop(s.th, d), n.th, w[1..]);
  }

  lemma HeadGone(w: seq<nat>)
    requires Distinct(w) && w != []
    ensures w[0] !in w[1..]
  {
  }

  // ----- Creating

  ghost predicate CanCreate(s: St, c: nat, k: nat, t: Thread) {
    c < |s.cpu| && k < |L(s.lists, Unused)| && t.valid && t.cpu == c
  }

  ghost function CreateS(s: St, c: nat, k: nat, t: Thread): St
    requires Inv(s) && CanCreate(s, c, k, t)
  {
    Ends(s, c);
    Member(s, Unused, k);
    var d := L(s.lists, Unused)[k];
    s.(th := LinkFront(s.th[d := t], s.cpu[c].first, s.cpu[c].last, d, false),
       cpu := s.cpu[c := s.cpu[c].(first := d)],
       lists := MoveAt(s.lists, Unused, k, Run(c)), own := s.own[d := Run(c)])
  }

  lemma CreateInv(s: St, c: nat, k: nat, t: Thread)
    requires Inv(s) && CanCreate(s, c, k, t)
    ensures Inv(CreateS(s, c, k, t))
  {
    hide Inv, Ring, Stack, LinkFront, MoveAt, CpuOk;
    Ends(s, c);
    PartOf(s);
    Member(s, Unused, k);
    var d, n := L(s.lists, Unused)[k], CreateS(s, c, k, t);
    LinkedIn(s, s.th[d := t], c, d);
    MoveAtPart(s.lists, s.own, Unused, k, Run(c));
    MoveAtAre(s.lists, Unused, k, Run(c));
    assert Touches(s, n, Run(c), Run(c), d);
    PendingNotIdle(s, d);
    forall e: nat | e < |n.cpu|
      ensures CpuOk(n.th, n.lists, n.cpu[e], e)
    {
      if e != c {
        CpuKept(s, n, Run(c), Run(c), d, e);
      } else {
        CreateCpu(s, c, k, t);
      }
    }
    Rebuild(s, n, Run(c), Run(c), d);
  }

  lemma CreateCpu(s: St, c: nat, k: nat, t: Thread)
    requires Inv(s) && CanCreate(s, c, k, t)
    ensures var n := CreateS(s, c, k, t); CpuOk(n.th, n.lists, n.cpu[c], c)
  {
    hide Inv, Ring, Stack, LinkFront, MoveAt;
    Ends(s, c);
    InvCpu(s, c);
    Member(s, Unused, k);
    var d, n := L(s.lists, Unused)[k], CreateS(s, c, k, t);
    LinkedIn(s, s.th[d := t], c, d);
    MoveAtAre(s.lists, Unused, k, Run(c));
    assert Touches(s, n, Run(c), Run(c), d);
    RunKept(s, n, Run(c), Run(c), d, Swap(c));
    StackFrame(s.th, n.th, L(s.lists, Swap(c)));
  }

  // ----- Changes that are not to the lists

  /** Equal but for the current thread. */
  predicate SameCpu(a: Cpu, b: Cpu, nthreads: nat) {
    b == a.(current := b.current) && (b == a || 0 <= b.current < nthreads)
  }

  /** Other fields may change freely as long as the idle threads stay ready. */
  lemma FieldsInv(s: St, n: St)
    requires Inv(s) && n.lists == s.lists && n.own == s.own && n.idle == s.idle && |n.th| == |s.th|
    requires |n.cpu| == |s.cpu|
    requires forall c: nat | c < |s.cpu| :: SameCpu(s.cpu[c], n.cpu[c], |s.th|)
    requires forall i: nat | i < |s.th| ::
      SameLinks(s.th[i], n.th[i]) && n.th[i].valid == s.th[i].valid && n.th[i].cpu == s.th[i].cpu
    requires |s.idle| == |s.cpu| && forall c: nat | c < |s.idle| :: s.idle[c] < |n.th| && Ready(n.th[s.idle[c]])
    ensures Inv(n)
  {
    forall c: nat | c < |n.cpu|
      ensures CpuOk(n.th, n.lists, n.cpu[c], c) && IdleOk(n, c)
    {
      hide Inv, Ring, Stack;
      InvCpu(s, c);
      RingFrame(s.th, n.th, L(s.lists, Run(c)));
      StackFrame(s.th, n.th, L(s.lists, Swap(c)));
    }
    forall d: nat | d < |n.th|
      ensures ThOk(n.th[d], n.own[d], |n.cpu|)
    {
      hide Inv;
      InvTh(s, d);
    }
  }

  /** Each live thread is on exactly one list, of the processor it names. */
  lemma OnOneList(s: St, d: nat, p: Place)
    requires Inv(s) && d < |s.th|
    ensures d in L(s.lists, p) <==> p == s.own[d]
    ensures s.th[d].valid <==> s.own[d] != Unused
    ensures s.th[d].valid ==> s.own[d].c == s.th[d].cpu < |s.cpu|
  {
    hide Inv;
    PartOf(s);
    InvTh(s, d);
    if p == s.own[d] {
      PartCover(s.lists, s.own, d);
    } else {
      NotMember(s, p, d);
    }
  }
}
