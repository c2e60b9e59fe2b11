/** The steps of the driver and of the controller, each proved to keep the invariant
    of module OhciState. */
module OhciSteps {
  import opened PlaceLists
  import opened OhciPlaces
  import opened OhciState

  // ----- Components under a move that does not concern them

  lemma EpsKept(s: St, n: Lists<Place>, d: nat, t: Td)
    requires Inv(s) && d < |s.td| && (!s.own[d].Wait? || t.next == s.td[d].next)
    requires forall p: Place | p.Wait? || p.Tail? :: L(n, p) == L(s.lists, p)
    ensures EpsOk(s.td[d := t], n, s.ep, s.sub)
  {
    forall e: nat | e < |s.ep|
      ensures EpOk(s.td[d := t], n, s.ep[e], e, s.sub)
    {
      hide Part, EpOk, FreeOk, DonesOk, TdsOk, ReqsOk;
      EpKept(s.td, s.own, s.lists, n, d, t, s.ep[e], e, s.sub);
    }
  }

  lemma DonesKept(s: St, n: Lists<Place>, d: nat, t: Td)
    requires Inv(s) && d < |s.td| && (!Retired(s.own[d]) || t.next == s.td[d].next)
    requires forall p: Place | Retired(p) :: L(n, p) == L(s.lists, p)
    ensures DonesOk(s.td[d := t], n, s.doneReg, s.hcca, s.wdh)
  {
    forall p: Place | Retired(p)
      ensures Linked(s.td[d := t], L(n, p), NIL)
    {
      hide Part, Linked, EpsOk, FreeOk, TdsOk, ReqsOk;
      DoneKept(s.td, s.own, s.lists, d, t, p);
    }
  }

  lemma ReqsKept(s: St, d: nat, t: Td, p: Place)
    requires Inv(s) && d < |s.td|
    requires forall r: nat, k: Kind :: Weight(t, p, r, k) == Weight(s.td[d], s.own[d], r, k)
    ensures ReqsOk(s.td[d := t], s.own[d := p], s.req, s.acct, s.sub)
  {
    forall r: nat | r < |s.req|
      ensures ReqOk(s.td[d := t], s.own[d := p], s.req[r], s.acct[r], s.sub, r)
    {
      hide Part, EpsOk, FreeOk, DonesOk, TdsOk, ReqOk, Weight;
      ReqKept(s.td, s.own, d, t, p, s.req[r], s.acct[r], s.sub, r);
    }
  }

  lemma FreesKept(s: St, n: Lists<Place>, d: nat, t: Td)
    requires Inv(s) && d < |s.td| && s.own[d] != Free && L(n, Free) == L(s.lists, Free)
    ensures FreeOk(s.td[d := t], n, s.freelist)
  {
    hide Part, EpsOk, FreeOk, DonesOk, TdsOk, ReqsOk;
    FreeKept(s.td, s.own, s.lists, n, d, t, s.freelist);
  }

  // ----- _ohci_allocxfer and _ohci_freexfer

  ghost function AllocS(s: St): St
    requires L(s.lists, Free) != [] && L(s.lists, Free)[0] < |s.td| == |s.own|
  {
    var d := L(s.lists, Free)[0];
    s.(td := s.td[d := Td(NIL, NIL, NIL, s.td[d].length, 0, 0, 0)], freelist := s.td[d].tnext,
       lists := MoveFront(s.lists, Free, Held), own := s.own[d := Held])
  }

  lemma AllocInv(s: St)
    requires Inv(s) && L(s.lists, Free) != []
    ensures L(s.lists, Free)[0] == s.freelist < |s.td| == |s.own|
    ensures Inv(AllocS(s)) && L(AllocS(s).lists, Held) == [L(s.lists, Free)[0]] + L(s.lists, Held)
  {
    hide Part, EpsOk, FreeLinked, DonesOk, TdsOk, ReqsOk;
    var d, n := L(s.lists, Free)[0], MoveFront(s.lists, Free, Held);
    MoveFrontPart(s.lists, s.own, Free, Held);
    var t := Td(NIL, NIL, NIL, s.td[d].length, 0, 0, 0);
    PartAt(s.lists, s.own, Free, 0);
    FreeTail(s.td, L(s.lists, Free));
    FreeFrame(s.td, d, t, L(s.lists, Free)[1..]);
    EpsKept(s, n, d, t);
    DonesKept(s, n, d, t);
    ReqsKept(s, d, t, Held);
    TdsKept(s.td, s.own, d, t, Held, |s.req|);
  }

  ghost function FreeS(s: St): St
    requires L(s.lists, Held) != [] && L(s.lists, Held)[0] < |s.td| == |s.own|
  {
    var d := L(s.lists, Held)[0];
    s.(td := s.td[d := s.td[d].(tnext := s.freelist)], freelist := d,
       lists := MoveFront(s.lists, Held, Free), own := s.own[d := Free])
  }

  lemma FreeInv(s: St)
    requires Inv(s) && L(s.lists, Held) != []
    ensures L(s.lists, Held)[0] < |s.td| == |s.own|
    ensures Inv(FreeS(s)) && L(FreeS(s).lists, Held) == L(s.lists, Held)[1..]
  {
    hide Part, EpsOk, FreeLinked, DonesOk, TdsOk, ReqsOk;
    var d, n := L(s.lists, Held)[0], MoveFront(s.lists, Held, Free);
    MoveFrontPart(s.lists, s.own, Held, Free);
    var t := s.td[d].(tnext := s.freelist);
    NotIn(s.lists, s.own, Free, d);
    FreeFrame(s.td, d, t, L(s.lists, Free));
    FreeCons(s.td[d := t], d, L(s.lists, Free));
    EpsKept(s, n, d, t);
    DonesKept(s, n, d, t);
    ReqsKept(s, d, t, Free);
    TdsKept(s.td, s.own, d, t, Free, |s.req|);
  }

  // ----- The controller retires the first descriptor of a queue

  /** Section 4.3.1.3 of OpenHCI 1.0a: `k` bytes were moved, the code is `cc`. */
  function RetiredTd(t: Td, k: int, cc: int, next: int): Td {
    t.(cbp := if k == t.length then 0 else t.cbp + k, cc := cc, next := next)
  }

  ghost predicate CanRetire(s: St, e: nat) {
    e < |s.ep| && s.ep[e].open && !s.ep[e].skip && !s.ep[e].halted && s.ep[e].headp != s.ep[e].tailp
  }

  lemma RetireHead(s: St, e: nat)
    requires Inv(s) && CanRetire(s, e)
    ensures var d := s.ep[e].headp;
      && L(s.lists, Wait(e)) != [] && L(s.lists, Wait(e))[0] == d && 0 <= d < |s.td| && s.own[d] == Wait(e)
      && 0 <= s.td[d].ref < |s.req|
  {
    assert EpOk(s.td, s.lists, s.ep[e], e, s.sub);
    PartAt(s.lists, s.own, Wait(e), 0);
    assert TdOk(s.td[s.ep[e].headp], Wait(e), |s.req|);
  }

  ghost function RetireS(s: St, e: nat, k: int, cc: int): St
    requires Inv(s) && CanRetire(s, e)
  {
    RetireHead(s, e);
    var d := s.ep[e].headp;
    var t := s.td[d];
    s.(td := s.td[d := RetiredTd(t, k, cc, s.doneReg)], doneReg := d,
       ep := s.ep[e := s.ep[e].(headp := t.next, halted := cc != 0)],
       lists := MoveFront(s.lists, Wait(e), DoneHw), own := s.own[d := DoneHw],
       acct := s.acct[t.ref := s.acct[t.ref].(moved := s.acct[t.ref].moved + k)])
  }

  lemma RetireEps(s: St, e: nat, k: int, cc: int)
    requires Inv(s) && CanRetire(s, e)
    ensures var n := RetireS(s, e, k, cc); EpsOk(n.td, n.lists, n.ep, n.sub)
  {
    hide Part, Linked, DonesOk, FreeOk, TdsOk, ReqsOk;
    RetireHead(s, e);
    var n := RetireS(s, e, k, cc);
    var d, t := s.ep[e].headp, RetiredTd(s.td[s.ep[e].headp], k, cc, s.doneReg);
    forall i: nat | i < |n.ep|
      ensures EpOk(n.td, n.lists, n.ep[i], i, n.sub)
    {
      assert EpOk(s.td, s.lists, s.ep[i], i, s.sub);
      if i != e {
        hide Part, EpOk, FreeOk, DonesOk, TdsOk, ReqsOk;
        EpKept(s.td, s.own, s.lists, n.lists, d, t, s.ep[i], i, s.sub);
      } else {
        var q, end := L(s.lists, Wait(e)), L(s.lists, Tail(e))[0];
        LinkedTail(s.td, q, end);
        PartAt(s.lists, s.own, Wait(e), 0);
        LinkedFrame(s.td, d, t, q[1..], end);
        assert s.ep[e].tailp in q ==> s.ep[e].tailp in q[1..] by {
          assert q == [d] + q[1..];
        }
      }
    }
  }

  lemma RetireDones(s: St, e: nat, k: int, cc: int)
    requires Inv(s) && CanRetire(s, e)
    ensures var n := RetireS(s, e, k, cc); DonesOk(n.td, n.lists, n.doneReg, n.hcca, n.wdh)
  {
    hide Part, Linked, EpsOk, FreeOk, TdsOk, ReqsOk;
    RetireHead(s, e);
    var n := RetireS(s, e, k, cc);
    var d, t := s.ep[e].headp, RetiredTd(s.td[s.ep[e].headp], k, cc, s.doneReg);
    forall p: Place | Retired(p)
      ensures Linked(n.td, L(n.lists, p), NIL)
    {
      assert Linked(s.td, L(s.lists, p), NIL);
      DoneKept(s.td, s.own, s.lists, d, t, p);
      if p == DoneHw {
        LinkedCons(n.td, d, L(s.lists, DoneHw), NIL);
      }
    }
  }

  lemma RetireReqs(s: St, e: nat, k: int, cc: int)
    requires Inv(s) && CanRetire(s, e) && 0 <= k <= s.td[s.ep[e].headp].length
    ensures var n := RetireS(s, e, k, cc); TdsOk(n.td, n.own, |n.req|) && ReqsOk(n.td, n.own, n.req, n.acct, n.sub)
  {
    hide Part, EpsOk, FreeOk, DonesOk;
    RetireHead(s, e);
    var n := RetireS(s, e, k, cc);
    var d := s.ep[e].headp;
    var t := RetiredTd(s.td[d], k, cc, s.doneReg);
    assert TdOk(s.td[d], s.own[d], |s.req|);
    TdsKept(s.td, s.own, d, t, DoneHw, |s.req|);
    hide TdsOk;
    forall r: nat | r < |n.req|
      ensures ReqOk(n.td, n.own, n.req[r], n.acct[r], n.sub, r)
    {
      RetireOne(s.td, s.own, |s.req|, d, k, cc, s.doneReg, s.req[r], s.acct[r], s.sub, e, r);
    }
  }

  lemma RetireOne(td: seq<Td>, own: seq<Place>, nreq: nat, d: nat, k: int, cc: int, next: int, q: Req, a: Acct,
      sub: Submission, e: nat, r: nat)
    requires |td| == |own| && d < |td| && own[d] == Wait(e) && TdOk(td[d], own[d], nreq) && 0 <= k <= td[d].length
    requires ReqOk(td, own, q, a, sub, r)
    ensures var t := RetiredTd(td[d], k, cc, next);
      ReqOk(td[d := t], own[d := DoneHw], q, if td[d].ref == r then a.(moved := a.moved + k) else a, sub, r)
  {
    hide Total;
    var t := RetiredTd(td[d], k, cc, next);
    assert Got(t) == k;
    TotalUpdate(td, own, d, t, DoneHw, r, Count);
    TotalUpdate(td, own, d, t, DoneHw, r, Len);
    TotalUpdate(td, own, d, t, DoneHw, r, Bytes);
  }

  lemma RetireInv(s: St, e: nat, k: int, cc: int)
    requires Inv(s) && CanRetire(s, e) && 0 <= k <= s.td[s.ep[e].headp].length
    ensures Inv(RetireS(s, e, k, cc))
  {
    hide Part, EpsOk, FreeOk, DonesOk, TdsOk, ReqsOk;
    RetireHead(s, e);
    var d := s.ep[e].headp;
    var t := RetiredTd(s.td[d], k, cc, s.doneReg);
    RetireEps(s, e, k, cc);
    RetireDones(s, e, k, cc);
    RetireReqs(s, e, k, cc);
    MoveFrontPart(s.lists, s.own, Wait(e), DoneHw);
    FreesKept(s, MoveFront(s.lists, Wait(e), DoneHw), d, t);
  }

  // ----- Handing the done list over

  lemma RenamedRest(s: St, p: Place, q: Place)
    requires Inv(s) && Retired(p) && Retired(q) && p != q && L(s.lists, q) == []
    ensures var n, o := Renamed(s.lists, p, q), RenamedOwn(s.own, p, q);
      && Part(n, o) && FreeOk(s.td, n, s.freelist) && EpsOk(s.td, n, s.ep, s.sub)
      && TdsOk(s.td, o, |s.req|) && ReqsOk(s.td, o, s.req, s.acct, s.sub)
      && (forall x: Place | Retired(x) :: Linked(s.td, L(n, x), NIL))
  {
    hide Part, Linked, EpsOk, ReqsOk, TdsOk;
    var n := Renamed(s.lists, p, q);
    RenamedPart(s.lists, s.own, p, q);
    RenamedAre(s.lists, p, q);
    RenamedEps(s, p, q);
    RenamedReqs(s, p, q);
    NilLinked(s.td);
  }

  lemma RenamedAre(lists: Lists<Place>, p: Place, q: Place)
    requires p != q
    ensures var n := Renamed(lists, p, q);
      L(n, p) == [] && L(n, q) == L(lists, p) && forall x: Place | x != p && x != q :: L(n, x) == L(lists, x)
  {
  }

  lemma RenamedEps(s: St, p: Place, q: Place)
    requires Inv(s) && Retired(p) && Retired(q) && p != q
    ensures EpsOk(s.td, Renamed(s.lists, p, q), s.ep, s.sub)
  {
    hide Part, Linked, FreeOk, DonesOk, TdsOk, ReqsOk, Renamed;
    RenamedAre(s.lists, p, q);
    forall e: nat | e < |s.ep|
      ensures EpOk(s.td, Renamed(s.lists, p, q), s.ep[e], e, s.sub)
    {
      assert EpOk(s.td, s.lists, s.ep[e], e, s.sub);
    }
  }

  lemma NilLinked(td: seq<Td>)
    ensures Linked(td, [], NIL)
  {
  }

  lemma RenamedReqs(s: St, p: Place, q: Place)
    requires Inv(s) && Retired(p) && Retired(q)
    ensures TdsOk(s.td, RenamedOwn(s.own, p, q), |s.req|)
    ensures ReqsOk(s.td, RenamedOwn(s.own, p, q), s.req, s.acct, s.sub)
  {
    hide Part, EpsOk, FreeOk, DonesOk;
    var o := RenamedOwn(s.own, p, q);
    forall d: nat | d < |s.td|
      ensures TdOk(s.td[d], o[d], |s.req|)
    {
      assert TdOk(s.td[d], s.own[d], |s.req|);
    }
    forall r: nat | r < |s.req|
      ensures ReqOk(s.td, o, s.req[r], s.acct[r], s.sub, r)
    {
      assert ReqOk(s.td, s.own, s.req[r], s.acct[r], s.sub, r);
      assert Weights(s.td, o, r, Count) == Weights(s.td, s.own, r, Count);
      assert Weights(s.td, o, r, Len) == Weights(s.td, s.own, r, Len);
      assert Weights(s.td, o, r, Bytes) == Weights(s.td, s.own, r, Bytes);
    }
  }

  /** Section 4.4 of OpenHCI 1.0a: the done list is written to the shared area when
      the driver has acknowledged the previous one. */
  ghost function WritebackS(s: St): St {
    s.(hcca := s.doneReg, doneReg := NIL, wdh := true,
       lists := Renamed(s.lists, DoneHw, DoneHcca), own := RenamedOwn(s.own, DoneHw, DoneHcca))
  }

  lemma WritebackInv(s: St)
    requires Inv(s) && !s.wdh
    ensures Inv(WritebackS(s))
  {
    hide Part, Linked, EpsOk, FreeOk, TdsOk, ReqsOk, Renamed;
    RenamedRest(s, DoneHw, DoneHcca);
    RenamedAre(s.lists, DoneHw, DoneHcca);
  }

  /** The driver reads the done head and acknowledges it. */
  ghost function TakeS(s: St, depth: nat): St {
    s.(wdh := false, lists := Renamed(s.lists, DoneHcca, Hand(depth)), own := RenamedOwn(s.own, DoneHcca, Hand(depth)))
  }

  lemma TakeInv(s: St, depth: nat)
    requires Inv(s) && s.wdh && L(s.lists, Hand(depth)) == []
    ensures Inv(TakeS(s, depth)) && s.hcca == First(L(TakeS(s, depth).lists, Hand(depth)), NIL)
  {
    hide Part, Linked, EpsOk, FreeOk, TdsOk, ReqsOk, Renamed;
    RenamedRest(s, DoneHcca, Hand(depth));
    RenamedAre(s.lists, DoneHcca, Hand(depth));
  }

  // ----- Accounting one descriptor to its request

  /** One descriptor less; the request completes with the last. */
  function Settle(q: Req, got: int, cc: int, final: int): Req {
    var n := q.tdcount - 1;
    q.(tdcount := n, xferred := q.xferred + got, status := if n == 0 then final else cc,
       inprogress := n != 0 && q.inprogress)
  }

  function SettleAcct(q: Req, a: Acct, short: int): Acct {
    a.(short := a.short + short, completed := if q.tdcount == 1 then a.completed + 1 else a.completed)
  }

  ghost function SettleS(s: St, p: Place, got: int, cc: int, final: int): St
    requires L(s.lists, p) != [] && L(s.lists, p)[0] < |s.td| == |s.own| && |s.req| == |s.acct|
    requires 0 <= s.td[L(s.lists, p)[0]].ref < |s.req|
  {
    var d := L(s.lists, p)[0];
    var r := s.td[d].ref;
    s.(lists := MoveFront(s.lists, p, Held), own := s.own[d := Held],
       req := s.req[r := Settle(s.req[r], got, cc, final)],
       acct := s.acct[r := SettleAcct(s.req[r], s.acct[r], s.td[d].length - got)],
       log := s.log + [Settled(d, p, r, got, cc)])
  }

  lemma SettleHead(s: St, p: Place)
    requires Inv(s) && Out(p) && L(s.lists, p) != []
    ensures var d := L(s.lists, p)[0]; d < |s.td| == |s.own| && s.own[d] == p && 0 <= s.td[d].ref < |s.req| == |s.acct|
  {
    PartAt(s.lists, s.own, p, 0);
    assert TdOk(s.td[L(s.lists, p)[0]], p, |s.req|);
  }

  /** The driver's byte count for a retired descriptor, or nothing for a cancelled one. */
  lemma SettleReqs(s: St, p: Place, cc: int, final: int)
    requires Inv(s) && Out(p) && L(s.lists, p) != [] && s.sub.Idle?
    ensures var d := L(s.lists, p)[0];
      && d < |s.td| == |s.own| && 0 <= s.td[d].ref < |s.req| == |s.acct|
      && var n := SettleS(s, p, if Retired(p) then Got(s.td[d]) else 0, cc, final);
      ReqsOk(n.td, n.own, n.req, n.acct, n.sub)
  {
    hide Part, EpsOk, FreeOk, DonesOk, TdsOk;
    SettleHead(s, p);
    var d := L(s.lists, p)[0];
    var got := if Retired(p) then Got(s.td[d]) else 0;
    var n := SettleS(s, p, got, cc, final);
    forall r: nat | r < |n.req|
      ensures ReqOk(n.td, n.own, n.req[r], n.acct[r], n.sub, r)
    {
      hide ReqOk;
      if r == s.td[d].ref {
        SettleOne(s.td, s.own, d, s.req[r], s.acct[r], r, got, cc, final);
      } else {
        assert s.td[d := s.td[d]] == s.td;
        ReqKept(s.td, s.own, d, s.td[d], Held, s.req[r], s.acct[r], s.sub, r);
      }
    }
  }

  lemma SettleOne(td: seq<Td>, own: seq<Place>, d: nat, q: Req, a: Acct, r: nat, got: int, cc: int, final: int)
    requires |td| == |own| && d < |td| && Out(own[d]) && td[d].ref == r && ReqOk(td, own, q, a, Idle, r)
    requires got == if Retired(own[d]) then Got(td[d]) else 0
    ensures ReqOk(td, own[d := Held], Settle(q, got, cc, final), SettleAcct(q, a, td[d].length - got), Idle, r)
  {
    CountPositive(td, own, d);
    hide Total;
    assert td[d := td[d]] == td;
    TotalUpdate(td, own, d, td[d], Held, r, Count);
    TotalUpdate(td, own, d, td[d], Held, r, Len);
    TotalUpdate(td, own, d, td[d], Held, r, Bytes);
  }

  lemma CountPositive(td: seq<Td>, own: seq<Place>, d: nat)
    requires |td| == |own| && d < |td| && Out(own[d])
    ensures Total(td, own, td[d].ref, Count) >= 1
  {
    SumPositive(Weights(td, own, td[d].ref, Count), d);
  }

  /** One round of the done-queue loop, up to the callback. */
  ghost function DoneS(s: St, depth: nat): St
    requires L(s.lists, Hand(depth)) != [] && L(s.lists, Hand(depth))[0] < |s.td| == |s.own| && |s.req| == |s.acct|
    requires 0 <= s.td[L(s.lists, Hand(depth))[0]].ref < |s.req|
  {
    var t := s.td[L(s.lists, Hand(depth))[0]];
    SettleS(s, Hand(depth), Got(t), t.cc, if s.req[t.ref].removing then CC_CANCELLED else t.cc)
  }

  lemma DoneInv(s: St, depth: nat)
    requires Inv(s) && L(s.lists, Hand(depth)) != [] && s.sub.Idle?
    ensures var p := Hand(depth);
      L(s.lists, p)[0] < |s.td| == |s.own| && |s.req| == |s.acct| && 0 <= s.td[L(s.lists, p)[0]].ref < |s.req|
    ensures Inv(DoneS(s, depth))
    ensures var n := DoneS(s, depth).lists;
      && L(n, Held) == [L(s.lists, Hand(depth))[0]] + L(s.lists, Held)
      && L(n, Hand(depth)) == L(s.lists, Hand(depth))[1..]
      && (forall q: Place | q != Held && q != Hand(depth) :: L(n, q) == L(s.lists, q))
      && s.td[L(s.lists, Hand(depth))[0]].next == First(L(n, Hand(depth)), NIL)
  {
    hide Part, EpsOk, FreeOk, TdsOk, ReqsOk, Linked;
    var p := Hand(depth);
    SettleHead(s, p);
    var d := L(s.lists, p)[0];
    SettleReqs(s, p, s.td[d].cc, if s.req[s.td[d].ref].removing then CC_CANCELLED else s.td[d].cc);
    MoveFrontPart(s.lists, s.own, p, Held);
    var n := MoveFront(s.lists, p, Held);
    assert s.td[d := s.td[d]] == s.td;
    EpsKept(s, n, d, s.td[d]);
    FreesKept(s, n, d, s.td[d]);
    HeldTd(s, d);
    LinkedTail(s.td, L(s.lists, p), NIL);
    assert DonesOk(s.td, n, s.doneReg, s.hcca, s.wdh);
  }

  lemma HeldTd(s: St, d: nat)
    requires Inv(s) && d < |s.td|
    ensures TdsOk(s.td, s.own[d := Held], |s.req|)
  {
    assert s.td[d := s.td[d]] == s.td;
    TdsKept(s.td, s.own, d, s.td[d], Held, |s.req|);
  }

  // ----- Submitting

  /** usb_queue_request and the start of ohci_xfer. */
  ghost function BeginS(s: St, e: nat, r: nat, len: nat): St
    requires r < |s.req| == |s.acct|
  {
    s.(sub := Sub(e, r, len),
       req := s.req[r := s.req[r].(length := len, tdcount := 0, xferred := 0, inprogress := true)],
       acct := s.acct[r := Acct(s.acct[r].submitted + 1, s.acct[r].completed, 0, 0)],
       log := s.log + [Began(r, len)])
  }

  ghost predicate CanSubmit(s: St, e: nat, r: nat) {
    s.sub.Idle? && e < |s.ep| && s.ep[e].open && !s.ep[e].skip && r < |s.req| && !s.req[r].inprogress
  }

  lemma NoneOut(td: seq<Td>, own: seq<Place>, r: int)
    requires |td| == |own| && Total(td, own, r, Count) <= 0
    ensures Total(td, own, r, Count) == Total(td, own, r, Len) == Total(td, own, r, Bytes) == 0
  {
    forall d: nat | d < |td|
      ensures td[d].ref == r ==> !Out(own[d])
    {
      if td[d].ref == r && Out(own[d]) {
        CountPositive(td, own, d);
      }
    }
    SumZero(Weights(td, own, r, Count));
    SumZero(Weights(td, own, r, Len));
    SumZero(Weights(td, own, r, Bytes));
  }

  lemma BeginInv(s: St, e: nat, r: nat, len: nat)
    requires Inv(s) && CanSubmit(s, e, r)
    ensures Inv(BeginS(s, e, r, len))
  {
    hide Part, FreeOk, DonesOk, TdsOk, Linked;
    var n := BeginS(s, e, r, len);
    assert ReqOk(s.td, s.own, s.req[r], s.acct[r], s.sub, r);
    NoneOut(s.td, s.own, r);
    forall i: nat | i < |n.req|
      ensures ReqOk(n.td, n.own, n.req[i], n.acct[i], n.sub, i)
    {
      hide Total;
      assert ReqOk(s.td, s.own, s.req[i], s.acct[i], s.sub, i);
    }
    forall i: nat | i < |n.ep|
      ensures EpOk(n.td, n.lists, n.ep[i], i, n.sub)
    {
      assert EpOk(s.td, s.lists, s.ep[i], i, s.sub);
    }
  }

  /** A chunk: the old dummy becomes a transfer of `amt` bytes, the descriptor just
      allocated the new dummy. */
  function ChunkTd(t: Td, n: int, r: int, amt: nat, cbp: int): Td {
    Td(n, n, r, amt, cbp, if amt == 0 then 0 else cbp + amt - 1, CC_NOTACCESSED)
  }

  ghost predicate CanChunk(s: St, amt: nat, cbp: int) {
    && s.sub.Sub? && L(s.lists, Held) != [] && amt <= s.sub.left
    && (if amt == 0 then cbp == 0 else cbp > 0)
  }

  lemma ChunkHeads(s: St)
    requires Inv(s) && s.sub.Sub? && L(s.lists, Held) != []
    ensures s.sub.e < |s.ep| && s.sub.r < |s.req| && |s.td| == |s.own|
    ensures var e := s.sub.e;
      && |L(s.lists, Tail(e))| == 1 && L(s.lists, Tail(e))[0] < |s.td| && L(s.lists, Held)[0] < |s.td|
      && s.own[L(s.lists, Tail(e))[0]] == Tail(e) && s.own[L(s.lists, Held)[0]] == Held
      && s.ep[e].open && !s.ep[e].skip
  {
    hide FreeOk, DonesOk, TdsOk, ReqsOk, Linked;
    assert EpOk(s.td, s.lists, s.ep[s.sub.e], s.sub.e, s.sub);
    PartAt(s.lists, s.own, Tail(s.sub.e), 0);
    PartAt(s.lists, s.own, Held, 0);
  }

  ghost function ChunkLists(lists: Lists<Place>, e: nat): Lists<Place>
    requires |L(lists, Tail(e))| == 1 && L(lists, Held) != []
  {
    MoveFront(MoveBack(lists, Tail(e), Wait(e)), Held, Tail(e))
  }

  ghost function ChunkS(s: St, amt: nat, cbp: int): St
    requires Inv(s) && CanChunk(s, amt, cbp)
  {
    ChunkHeads(s);
    var e, r := s.sub.e, s.sub.r;
    var d, n := L(s.lists, Tail(e))[0], L(s.lists, Held)[0];
    s.(td := s.td[d := ChunkTd(s.td[d], n, r, amt, cbp)],
       lists := ChunkLists(s.lists, e), own := s.own[d := Wait(e)][n := Tail(e)],
       req := s.req[r := s.req[r].(tdcount := s.req[r].tdcount + 1)],
       sub := Sub(e, r, s.sub.left - amt), log := s.log + [Queued(r)])
  }

  lemma ChunkListsAre(lists: Lists<Place>, e: nat)
    requires |L(lists, Tail(e))| == 1 && L(lists, Held) != []
    ensures var n := ChunkLists(lists, e);
      && L(n, Wait(e)) == L(lists, Wait(e)) + L(lists, Tail(e)) && L(n, Tail(e)) == [L(lists, Held)[0]]
      && L(n, Held) == L(lists, Held)[1..]
      && (forall p: Place | p != Wait(e) && p != Tail(e) && p != Held :: L(n, p) == L(lists, p))
  {
    var m := MoveBack(lists, Tail(e), Wait(e));
    assert L(m, Tail(e)) == [] && L(m, Held) == L(lists, Held);
    assert L(lists, Tail(e)) == [L(lists, Tail(e))[0]];
  }

  lemma ChunkPart(s: St, amt: nat, cbp: int)
    requires Inv(s) && CanChunk(s, amt, cbp)
    ensures var n := ChunkS(s, amt, cbp); Part(n.lists, n.own) && FreeOk(n.td, n.lists, n.freelist)
    ensures var n := ChunkS(s, amt, cbp); DonesOk(n.td, n.lists, n.doneReg, n.hcca, n.wdh)
  {
    hide EpsOk, FreeOk, DonesOk, TdsOk, ReqsOk, Linked, Part;
    ChunkHeads(s);
    var e := s.sub.e;
    var d, n := L(s.lists, Tail(e))[0], L(s.lists, Held)[0];
    ChunkListsAre(s.lists, e);
    MoveBackPart(s.lists, s.own, Tail(e), Wait(e));
    MoveFrontPart(MoveBack(s.lists, Tail(e), Wait(e)), s.own[d := Wait(e)], Held, Tail(e));
    var t := ChunkTd(s.td[d], n, s.sub.r, amt, cbp);
    FreesKept(s, ChunkLists(s.lists, e), d, t);
    DonesKept(s, ChunkLists(s.lists, e), d, t);
  }

  lemma ChunkEps(s: St, amt: nat, cbp: int)
    requires Inv(s) && CanChunk(s, amt, cbp)
    ensures var n := ChunkS(s, amt, cbp); EpsOk(n.td, n.lists, n.ep, n.sub)
  {
    hide FreeOk, DonesOk, TdsOk, ReqsOk, Linked, Part;
    ChunkHeads(s);
    var e := s.sub.e;
    var d, x := L(s.lists, Tail(e))[0], L(s.lists, Held)[0];
    var t := ChunkTd(s.td[d], x, s.sub.r, amt, cbp);
    var n := ChunkS(s, amt, cbp);
    ChunkListsAre(s.lists, e);
    forall i: nat | i < |n.ep|
      ensures EpOk(n.td, n.lists, n.ep[i], i, n.sub)
    {
      assert EpOk(s.td, s.lists, s.ep[i], i, s.sub);
      if i != e {
        EpKept(s.td, s.own, s.lists, n.lists, d, t, s.ep[i], i, s.sub);
      } else {
        var q := L(s.lists, Wait(e));
        NotIn(s.lists, s.own, Wait(e), d);
        LinkedFrame(s.td, d, t, q, d);
        LinkedSnoc(n.td, q, d, x);
        assert L(n.lists, Wait(e)) == q + [d];
      }
    }
  }

  lemma ChunkReqs(s: St, amt: nat, cbp: int)
    requires Inv(s) && CanChunk(s, amt, cbp)
    ensures var n := ChunkS(s, amt, cbp); TdsOk(n.td, n.own, |n.req|) && ReqsOk(n.td, n.own, n.req, n.acct, n.sub)
  {
    hide FreeOk, DonesOk, EpsOk, Part;
    ChunkHeads(s);
    var e, r := s.sub.e, s.sub.r;
    var d, x := L(s.lists, Tail(e))[0], L(s.lists, Held)[0];
    var t := ChunkTd(s.td[d], x, r, amt, cbp);
    var n := ChunkS(s, amt, cbp);
    var o := s.own[d := Wait(e)];
    assert n.td[x := n.td[x]] == n.td;
    TdsKept(s.td, s.own, d, t, Wait(e), |s.req|);
    TdsKept(n.td, o, x, n.td[x], Tail(e), |s.req|);
    hide TdsOk;
    forall i: nat | i < |n.req|
      ensures ReqOk(n.td, n.own, n.req[i], n.acct[i], n.sub, i)
    {
      assert ReqOk(s.td, s.own, s.req[i], s.acct[i], s.sub, i);
      ChunkTotals(s.td, s.own, d, t, x, e, i);
    }
  }

  lemma ChunkTotals(td: seq<Td>, own: seq<Place>, d: nat, t: Td, x: nat, e: nat, r: nat)
    requires |td| == |own| && d < |td| && x < |td| && d != x && own[d] == Tail(e) && own[x] == Held
    ensures var n, o := td[d := t], own[d := Wait(e)][x := Tail(e)];
      && Total(n, o, r, Count) == Total(td, own, r, Count) + (if t.ref == r then 1 else 0)
      && Total(n, o, r, Len) == Total(td, own, r, Len) + (if t.ref == r then t.length else 0)
      && Total(n, o, r, Bytes) == Total(td, own, r, Bytes)
  {
    hide Total;
    var n, o := td[d := t], own[d := Wait(e)];
    assert n[x := n[x]] == n;
    TotalUpdate(td, own, d, t, Wait(e), r, Count);
    TotalUpdate(td, own, d, t, Wait(e), r, Len);
    TotalUpdate(td, own, d, t, Wait(e), r, Bytes);
    TotalUpdate(n, o, x, n[x], Tail(e), r, Count);
    TotalUpdate(n, o, x, n[x], Tail(e), r, Len);
    TotalUpdate(n, o, x, n[x], Tail(e), r, Bytes);
  }

  lemma ChunkInv(s: St, amt: nat, cbp: int)
    requires Inv(s) && CanChunk(s, amt, cbp)
    ensures Inv(ChunkS(s, amt, cbp))
  {
    hide FreeOk, DonesOk, EpsOk, Part, TdsOk, ReqsOk, Linked;
    ChunkHeads(s);
    ChunkPart(s, amt, cbp);
    ChunkEps(s, amt, cbp);
    ChunkReqs(s, amt, cbp);
  }

  /** The end of ohci_xfer: the tail pointer moves to the new dummy. */
  ghost function CommitS(s: St, tail: int): St
    requires s.sub.Sub? && s.sub.e < |s.ep|
  {
    s.(ep := s.ep[s.sub.e := s.ep[s.sub.e].(tailp := tail)], sub := Idle)
  }

  /** Clearing the halt bit. */
  ghost function ResumeS(s: St, e: nat): St
    requires e < |s.ep|
  {
    s.(ep := s.ep[e := s.ep[e].(halted := false)])
  }

  lemma ResumeInv(s: St, e: nat)
    requires Inv(s) && e < |s.ep|
    ensures Inv(ResumeS(s, e))
  {
    hide Part, Linked, TdsOk, ReqsOk, FreeOk, DonesOk;
    var n := ResumeS(s, e);
    forall i: nat | i < |n.ep|
      ensures EpOk(n.td, n.lists, n.ep[i], i, n.sub)
    {
      assert EpOk(s.td, s.lists, s.ep[i], i, s.sub);
    }
  }

  lemma CommitInv(s: St, tail: int)
    requires Inv(s) && s.sub.Sub? && s.sub.left == 0 && L(s.lists, Tail(s.sub.e)) == [tail]
    requires s.req[s.sub.r].tdcount > 0
    ensures Inv(CommitS(s, tail))
  {
    hide FreeOk, DonesOk, Part, TdsOk, Linked, Total;
    var n := CommitS(s, tail);
    forall i: nat | i < |n.ep|
      ensures EpOk(n.td, n.lists, n.ep[i], i, n.sub)
    {
      assert EpOk(s.td, s.lists, s.ep[i], i, s.sub);
    }
    forall i: nat | i < |n.req|
      ensures ReqOk(n.td, n.own, n.req[i], n.acct[i], n.sub, i)
    {
      assert ReqOk(s.td, s.own, s.req[i], s.acct[i], s.sub, i);
    }
  }

  // ----- Creating and deleting an endpoint

  /** ohci_ept_create: the descriptor just allocated is the dummy of an empty queue. */
  ghost function OpenS(s: St, e: nat): St
    requires e < |s.ep| && L(s.lists, Held) != [] && L(s.lists, Held)[0] < |s.own|
  {
    var d := L(s.lists, Held)[0];
    s.(ep := s.ep[e := Ep(true, false, false, d, d)], lists := MoveFront(s.lists, Held, Tail(e)),
       own := s.own[d := Tail(e)])
  }

  lemma OpenInv(s: St, e: nat)
    requires Inv(s) && s.sub.Idle? && e < |s.ep| && !s.ep[e].open && L(s.lists, Held) != []
    ensures L(s.lists, Held)[0] < |s.own| && Inv(OpenS(s, e)) && L(OpenS(s, e).lists, Held) == L(s.lists, Held)[1..]
  {
    hide FreeOk, DonesOk, Part, TdsOk, ReqsOk, Linked;
    PartAt(s.lists, s.own, Held, 0);
    var d, n := L(s.lists, Held)[0], MoveFront(s.lists, Held, Tail(e));
    MoveFrontPart(s.lists, s.own, Held, Tail(e));
    assert s.td[d := s.td[d]] == s.td;
    FreesKept(s, n, d, s.td[d]);
    DonesKept(s, n, d, s.td[d]);
    ReqsKept(s, d, s.td[d], Tail(e));
    TdsKept(s.td, s.own, d, s.td[d], Tail(e), |s.req|);
    var x := OpenS(s, e);
    forall i: nat | i < |x.ep|
      ensures EpOk(x.td, x.lists, x.ep[i], i, x.sub)
    {
      assert EpOk(s.td, s.lists, s.ep[i], i, s.sub);
      if i == e {
        EmptyLinked(s.td, d);
      }
    }
  }

  lemma EmptyLinked(td: seq<Td>, end: int)
    ensures Linked(td, [], end)
  {
  }

  /** ohci_ept_delete sets the skip bit; the controller leaves the queue alone. */
  ghost function SkipS(s: St, e: nat): St
    requires e < |s.ep|
  {
    s.(ep := s.ep[e := s.ep[e].(skip := true)])
  }

  lemma SkipInv(s: St, e: nat)
    requires Inv(s) && s.sub.Idle? && e < |s.ep|
    ensures Inv(SkipS(s, e))
  {
    hide FreeOk, DonesOk, Part, TdsOk, ReqsOk, Linked;
    var n := SkipS(s, e);
    forall i: nat | i < |n.ep|
      ensures EpOk(n.td, n.lists, n.ep[i], i, n.sub)
    {
      assert EpOk(s.td, s.lists, s.ep[i], i, s.sub);
    }
  }

  /** A queued descriptor of a deleted endpoint is cancelled. */
  ghost function CancelS(s: St, e: nat): St
    requires L(s.lists, Wait(e)) != [] && L(s.lists, Wait(e))[0] < |s.td| == |s.own| && |s.req| == |s.acct|
    requires 0 <= s.td[L(s.lists, Wait(e))[0]].ref < |s.req|
  {
    SettleS(s, Wait(e), 0, CC_CANCELLED, CC_CANCELLED)
  }

  lemma CancelInv(s: St, e: nat)
    requires Inv(s) && s.sub.Idle? && e < |s.ep| && s.ep[e].open && s.ep[e].skip && L(s.lists, Wait(e)) != []
    ensures var p := Wait(e);
      L(s.lists, p)[0] < |s.td| == |s.own| && |s.req| == |s.acct| && 0 <= s.td[L(s.lists, p)[0]].ref < |s.req|
    ensures Inv(CancelS(s, e))
    ensures var n := CancelS(s, e).lists;
      && L(n, Held) == [L(s.lists, Wait(e))[0]] + L(s.lists, Held) && L(n, Wait(e)) == L(s.lists, Wait(e))[1..]
      && (forall q: Place | q != Held && q != Wait(e) :: L(n, q) == L(s.lists, q))
      && |L(n, Tail(e))| == 1 && s.td[L(s.lists, Wait(e))[0]].next == First(L(n, Wait(e)), L(n, Tail(e))[0])
  {
    hide Part, DonesOk, FreeOk, TdsOk, ReqsOk, Linked;
    var p := Wait(e);
    SettleHead(s, p);
    var d := L(s.lists, p)[0];
    SettleReqs(s, p, CC_CANCELLED, CC_CANCELLED);
    MoveFrontPart(s.lists, s.own, p, Held);
    var n := MoveFront(s.lists, p, Held);
    assert s.td[d := s.td[d]] == s.td;
    DonesKept(s, n, d, s.td[d]);
    FreesKept(s, n, d, s.td[d]);
    HeldTd(s, d);
    var x := CancelS(s, e);
    assert EpOk(s.td, s.lists, s.ep[e], e, s.sub);
    LinkedTail(s.td, L(s.lists, p), L(s.lists, Tail(e))[0]);
    forall i: nat | i < |x.ep|
      ensures EpOk(x.td, x.lists, x.ep[i], i, x.sub)
    {
      assert EpOk(s.td, s.lists, s.ep[i], i, s.sub);
    }
  }

  /** The empty queue is closed; its dummy is in the driver's hands. */
  ghost function CloseS(s: St, e: nat): St
    requires e < |s.ep| && L(s.lists, Tail(e)) != [] && L(s.lists, Tail(e))[0] < |s.own|
  {
    var d := L(s.lists, Tail(e))[0];
    s.(ep := s.ep[e := s.ep[e].(open := false)], lists := MoveFront(s.lists, Tail(e), Held), own := s.own[d := Held])
  }

  lemma CloseInv(s: St, e: nat)
    requires Inv(s) && s.sub.Idle? && e < |s.ep| && s.ep[e].open && s.ep[e].skip && L(s.lists, Wait(e)) == []
    ensures L(s.lists, Tail(e)) != [] && L(s.lists, Tail(e))[0] < |s.own|
    ensures Inv(CloseS(s, e)) && L(CloseS(s, e).lists, Held) == [L(s.lists, Tail(e))[0]] + L(s.lists, Held)
  {
    hide FreeOk, DonesOk, Part, TdsOk, ReqsOk, Linked;
    assert EpOk(s.td, s.lists, s.ep[e], e, s.sub);
    PartAt(s.lists, s.own, Tail(e), 0);
    var d, n := L(s.lists, Tail(e))[0], MoveFront(s.lists, Tail(e), Held);
    MoveFrontPart(s.lists, s.own, Tail(e), Held);
    assert s.td[d := s.td[d]] == s.td;
    FreesKept(s, n, d, s.td[d]);
    DonesKept(s, n, d, s.td[d]);
    ReqsKept(s, d, s.td[d], Held);
    TdsKept(s.td, s.own, d, s.td[d], Held, |s.req|);
    var x := CloseS(s, e);
    forall i: nat | i < |x.ep|
      ensures EpOk(x.td, x.lists, x.ep[i], i, x.sub)
    {
      assert EpOk(s.td, s.lists, s.ep[i], i, s.sub);
    }
  }
}
