/** What an interrupt makes of the requests, in their own fields. */
module OhciLaws {
  import opened PlaceLists
  import opened OhciPlaces
  import opened OhciState
  import opened OhciSteps
  import opened OhciLog
  import opened OhciHw
  import opened OhciActs
  import opened OhciRounds
  import Ohci

  /** How many of the descriptors belong to request `r`, and the bytes those moved. */
  ghost function Mine(td: seq<Td>, l: seq<nat>, r: int): nat
    requires forall i | 0 <= i < |l| :: l[i] < |td|
  {
    if l == [] then 0
    else Mine(td, l[..|l| - 1], r) + if td[l[|l| - 1]].ref == r then 1 else 0
  }

  ghost function Moved(td: seq<Td>, l: seq<nat>, r: int): int
    requires forall i | 0 <= i < |l| :: l[i] < |td|
  {
    if l == [] then 0
    else Moved(td, l[..|l| - 1], r) + if td[l[|l| - 1]].ref == r then Got(td[l[|l| - 1]]) else 0
  }

  /** A request after the descriptors of a done list were settled: fewer are outstanding,
      more bytes are counted, and it completes exactly when the last one was among them. */
  predicate Credited(x: Tally, y: Tally, mine: nat, moved: int) {
    && y.q.tdcount == x.q.tdcount - mine && y.q.xferred == x.q.xferred + moved
    && y.submitted == x.submitted && y.completed == x.completed + (if mine > 0 && y.q.tdcount == 0 then 1 else 0)
    && y.q.inprogress == (x.q.inprogress && !(mine > 0 && y.q.tdcount == 0))
    && y.q.length == x.q.length && y.q.removing == x.q.removing && (mine == 0 ==> y == x)
  }

  lemma {:induction false} ReplayEntries(x: Tally, r: nat, td: seq<Td>, l: seq<nat>, p: Place)
    requires !p.Wait? && (forall i | 0 <= i < |l| :: l[i] < |td|) && Mine(td, l, r) <= x.q.tdcount
    ensures Credited(x, Replay(x, r, Entries(td, l, p)), Mine(td, l, r), Moved(td, l, r))
    decreases |l|
  {
    var evs := Entries(td, l, p);
    if l != [] {
      var n := |l| - 1;
      assert evs[..n] == Entries(td, l[..n], p);
      ReplayEntries(x, r, td, l[..n], p);
    }
  }

  /** One round without controller steps and callbacks. */
  lemma QuietRound(s: St, p: Place, depth: nat)
    requires Inv(s) && s.sub.Idle? && p.Hand? && L(s.lists, p) != []
    ensures var d, f := L(s.lists, p)[0], RoundS(s, p, NoCalls, depth);
      && Inv(f) && f.sub.Idle? && Grew(s, f) && f.wdh == s.wdh && L(f.lists, p) == L(s.lists, p)[1..]
      && d < |s.td| == |f.td| && f.log == s.log + [Entry(s.td[d], d, p)] && L(f.lists, Free) == [d] + L(s.lists, Free)
      && L(f.lists, DoneHcca) == L(s.lists, DoneHcca) && forall i: nat | i < |s.td| && i != d :: f.td[i] == s.td[i]
  {
    hide Inv;
    SettleHead(s, p);
    DoneInv(s, p.depth);
    var d, a := L(s.lists, p)[0], DoneS(s, p.depth);
    Ohci.SettleIs(s, p, a);
    Ohci.SettleGrew(s, p, Got(s.td[d]), s.td[d].cc);
    FreeInv(a);
    Ohci.SameGrew(s, a, FreeS(a));
    hide Grew, SettleT;
    assert BetweenS(a, NoCalls, depth) == a;
  }

  /** List `p` was gone through. */
  ghost predicate Swept(s: St, b: St, p: Place) {
    && b.wdh == s.wdh && L(b.lists, p) == [] && L(b.lists, DoneHcca) == L(s.lists, DoneHcca)
    && (forall i | 0 <= i < |L(s.lists, p)| :: L(s.lists, p)[i] < |s.td|)
    && b.log == s.log + Entries(s.td, L(s.lists, p), p)
    && (forall d | d in L(s.lists, p) || d in L(s.lists, Free) :: d in L(b.lists, Free))
  }

  /** All rounds: the descriptors end up on the free list. */
  lemma {:induction false} QuietLoop(s: St, p: Place, n: nat, depth: nat)
    requires Inv(s) && s.sub.Idle? && p.Hand? && n == |L(s.lists, p)|
    ensures var b := LoopS(s, p, n, NoCalls, depth); Inv(b) && Grew(s, b) && Swept(s, b, p)
    decreases n
  {
    hide Inv, RoundS, Grew;
    if n == 0 {
      SameStart(s);
    } else {
      hide Swept;
      var f, b := RoundS(s, p, NoCalls, depth), LoopS(s, p, n, NoCalls, depth);
      QuietRound(s, p, depth);
      QuietLoop(f, p, n - 1, depth);
      GrewTrans(s, f, b);
      SweptMore(s, f, b, p);
    }
  }

  lemma SweptMore(s: St, f: St, b: St, p: Place)
    requires Inv(s) && L(s.lists, p) != [] && L(s.lists, p)[0] < |s.td| == |f.td| && Swept(f, b, p) && f.wdh == s.wdh
    requires L(f.lists, p) == L(s.lists, p)[1..] && L(f.lists, Free) == [L(s.lists, p)[0]] + L(s.lists, Free)
    requires L(f.lists, DoneHcca) == L(s.lists, DoneHcca)
    requires var d := L(s.lists, p)[0];
      f.log == s.log + [Entry(s.td[d], d, p)] && forall i: nat | i < |s.td| && i != d :: f.td[i] == s.td[i]
    ensures Swept(s, b, p)
  {
    hide Inv, Entry, Entries;
    var l := L(s.lists, p);
    RestSame(s, f, l, p);
    EntriesCons(s.td, f.td, l, p);
    assert l == [l[0]] + l[1..];
  }

  lemma SameStart(s: St)
    requires Inv(s)
    ensures Grew(s, s)
  {
    hide Inv;
    Lengths(s);
    GrewSame(s, s);
  }

  lemma RestSame(s: St, f: St, l: seq<nat>, p: Place)
    requires Inv(s) && l == L(s.lists, p) != [] && |s.td| == |f.td|
    requires forall i: nat | i < |s.td| && i != l[0] :: f.td[i] == s.td[i]
    ensures forall i | 0 <= i < |l| :: l[i] < |s.td|
    ensures forall i | 1 <= i < |l| :: f.td[l[i]] == s.td[l[i]]
  {
    hide FreeOk, DonesOk, EpsOk, TdsOk, ReqsOk;
  }

  /** An interrupt with nothing else going on: the written-back descriptors all go to the
      free list, and every request is credited with its own. */
  lemma Quiet(s: St, depth: nat)
    requires Inv(s) && s.sub.Idle? && s.wdh && L(s.lists, Hand(depth)) == []
    ensures var l, b := L(s.lists, DoneHcca), IntrS(s, [], NoCalls, depth);
      && Inv(b) && !b.wdh && L(b.lists, DoneHcca) == [] && (forall d | d in l :: d in L(b.lists, Free))
      && (forall i | 0 <= i < |l| :: l[i] < |s.td|) && |b.req| == |s.req| == |b.acct| == |s.acct|
      && (forall r: nat | r < |s.req| :: Credited(TallyOf(s, r), TallyOf(b, r), Mine(s.td, l, r), Moved(s.td, l, r)))
  {
    hide Inv, LoopS, Grew;
    var l, b := L(s.lists, DoneHcca), IntrS(s, [], NoCalls, depth);
    TakeInv(s, depth);
    var x, p := TakeS(s, depth), Hand(depth);
    RenamedAre(s.lists, DoneHcca, p);
    assert HwT(s, []) == s;
    QuietLoop(x, p, |l|, depth + 1);
    forall r: nat | r < |s.req|
      ensures |b.req| == |s.req| == |b.acct| == |s.acct|
      ensures Credited(TallyOf(s, r), TallyOf(b, r), Mine(s.td, l, r), Moved(s.td, l, r))
    {
      Credit(x, b, l, p, r);
    }
    Lengths(s);
    GrewLengths(x, b);
  }

  lemma GrewLengths(a: St, b: St)
    requires Grew(a, b)
    ensures |b.req| == |a.req| == |b.acct| == |a.acct|
  {
  }

  lemma Credit(x: St, b: St, l: seq<nat>, p: Place, r: nat)
    requires Inv(b) && Grew(x, b) && r < |x.req| && (forall i | 0 <= i < |l| :: l[i] < |x.td|)
    requires b.log == x.log + Entries(x.td, l, p) && !p.Wait?
    requires Inv(x) && l == L(x.lists, p) && Out(p)
    ensures |b.req| == |x.req| == |b.acct| == |x.acct|
    ensures Credited(TallyOf(x, r), TallyOf(b, r), Mine(x.td, l, r), Moved(x.td, l, r))
  {
    hide Inv;
    assert Told(x, b, r) && Since(x, b) == Entries(x.td, l, p);
    MineOut(x, l, p, r);
    ReplayEntries(TallyOf(x, r), r, x.td, l, p);
  }

  /** No more descriptors of a request are on one list than it has outstanding. */
  lemma MineOut(x: St, l: seq<nat>, p: Place, r: nat)
    requires Inv(x) && l == L(x.lists, p) && Out(p) && r < |x.req|
    ensures forall i | 0 <= i < |l| :: l[i] < |x.td|
    ensures Mine(x.td, l, r) <= x.req[r].tdcount
  {
    Ohci.CountExact(x, r);
    forall i: nat | i < |l|
      ensures l[i] < |x.td| == |x.own| && x.own[l[i]] == p
    {
      Places(x, p, i);
    }
    Distinct(x, p);
    hide Inv, MineOf, Mine;
    MineSet(x.td, l, r);
    MineOutstanding(x, l, p, r);
    Subset(MineOf(x.td, l, r), Ohci.Outstanding(x, r, |x.td|));
  }

  lemma MineOutstanding(x: St, l: seq<nat>, p: Place, r: nat)
    requires |x.td| == |x.own| && Out(p) && forall i: nat | i < |l| :: l[i] < |x.td| && x.own[l[i]] == p
    ensures MineOf(x.td, l, r) <= Ohci.Outstanding(x, r, |x.td|)
  {
    hide MineOf;
    forall d | d in MineOf(x.td, l, r)
      ensures d in Ohci.Outstanding(x, r, |x.td|)
    {
      var i :| 0 <= i < |l| && l[i] == d;
      assert Ohci.OutFor(x, r, l[i]);
    }
  }

  lemma Distinct(x: St, p: Place)
    requires Inv(x)
    ensures forall i, j | 0 <= i < j < |L(x.lists, p)| :: L(x.lists, p)[i] != L(x.lists, p)[j]
  {
    hide FreeOk, DonesOk, EpsOk, TdsOk, ReqsOk;
  }

  lemma Subset(s: set<nat>, t: set<nat>)
    requires s <= t
    ensures |s| <= |t|
  {
    if s != t {
      assert t == s + (t - s);
    }
  }

  ghost function MineOf(td: seq<Td>, l: seq<nat>, r: nat): (s: set<nat>)
    requires forall i | 0 <= i < |l| :: l[i] < |td|
    ensures forall d | d in s :: d in l && td[d].ref == r
  {
    if l == [] then {}
    else MineOf(td, l[..|l| - 1], r) + if td[l[|l| - 1]].ref == r then {l[|l| - 1]} else {}
  }

  lemma {:induction false} MineSet(td: seq<Td>, l: seq<nat>, r: nat)
    requires (forall i | 0 <= i < |l| :: l[i] < |td|) && forall i, j | 0 <= i < j < |l| :: l[i] != l[j]
    ensures |MineOf(td, l, r)| == Mine(td, l, r)
    decreases |l|
  {
    if l != [] {
      MineSet(td, l[..|l| - 1], r);
      assert l[|l| - 1] !in l[..|l| - 1];
    }
  }

  /** The driver's interrupt routine with nothing else going on. */
  method QuietIntr(c: Ohci.Controller, ghost depth: nat) returns (fate: Ohci.Fate)
    requires c.Valid() && c.sub.Idle? && Ohci.Clear(c.lists, depth) && c.wdh && !c.odd
    modifies c, c.td, c.ep, c.req
    ensures fate.Fine? && c.Valid() && !c.wdh && L(c.lists, DoneHcca) == []
    ensures forall d | d in old(L(c.lists, DoneHcca)) :: d in L(c.lists, Free) && d < c.td.Length
    ensures |c.acct| == |old(c.acct)| == c.req.Length
    ensures forall r: nat | r < c.req.Length ::
      Credited(TallyOf(old(c.Snap()), r), TallyOf(c.Snap(), r), Mine(old(c.td[..]), old(L(c.lists, DoneHcca)), r),
               Moved(old(c.td[..]), old(L(c.lists, DoneHcca)), r))
  {
    hide Inv, IntrS, Deep, Keeps, Credited;
    Quiet(c.Snap(), depth);
    fate := c.Intr([], NoCalls, depth);
  }

  /** The callback is made exactly when a settlement completes its request. */
  lemma CalledBack(s: St, p: Place, calls: Calls, depth: nat)
    requires Inv(s) && Out(p) && L(s.lists, p) != [] && calls.Calls? && calls.after == []
    ensures var d, a := L(s.lists, p)[0], SettleT(s, p);
      && d < |s.td| && 0 <= s.td[d].ref < |s.req| == |s.acct| == |a.req| == |a.acct|
      && (if TallyOf(a, s.td[d].ref).completed > TallyOf(s, s.td[d].ref).completed
          then BetweenS(a, calls, depth) == RunS(a, calls.first, depth)
          else BetweenS(a, calls, depth) == a)
  {
    hide Inv, RunS;
    SettleHead(s, p);
  }

  // ----- Completion codes

  lemma {:induction false} LaterEvents(x: Tally, r: nat, evs: seq<Event>)
    requires forall i | 0 <= i < |evs| :: evs[i].r != r
    ensures Replay(x, r, evs) == x
  {
    if evs != [] {
      LaterEvents(x, r, evs[..|evs| - 1]);
    }
  }

  /** A request's status is the code of the last descriptor settled for it, or that of a
      cancelled one if it completed while its device was being removed. */
  lemma LastCode(a: St, b: St, r: nat, k: nat)
    requires Grew(a, b) && r < |a.req| && |a.log| <= k < |b.log|
    requires b.log[k].Settled? && b.log[k].r == r && forall j | k < j < |b.log| :: b.log[j].r != r
    ensures b.req[r].status == if b.req[r].tdcount == 0 && b.req[r].removing then 0xFF else b.log[k].cc
  {
    assert Told(a, b, r);
    var evs, n := Since(a, b), k - |a.log|;
    var x := TallyOf(a, r);
    assert evs == evs[..n] + [evs[n]] + evs[n + 1..];
    ReplayConcat(x, r, evs[..n] + [evs[n]], evs[n + 1..]);
    ReplayConcat(x, r, evs[..n], [evs[n]]);
    ReplayOne(Replay(x, r, evs[..n]), r, evs[n]);
    LaterEvents(Replay(x, r, evs[..n] + [evs[n]]), r, evs[n + 1..]);
    hide Replay;
  }
}
