/** What the OHCI controller does on its own, on values: which state any sequence of its
    steps leads to, what they leave alone, and when the driver may store a head pointer
    that it loaded before them. */
module OhciHw {
  import opened PlaceLists
  import opened OhciPlaces
  import opened OhciState
  import opened OhciSteps
  import opened OhciLog

  /** A descriptor at the head of an endpoint's queue is retired, or the done list is
      written back, with bit 0 set if other interrupts are pending. */
  datatype HwStep = Retire(e: nat, moved: int, cc: int) | Writeback(odd: bool)

  // ----- What is left alone

  /** Endpoints being deleted are left alone. */
  ghost predicate Frozen(a: St, b: St) {
    |a.ep| == |b.ep| && forall e: nat | e < |a.ep| && a.ep[e].open && a.ep[e].skip ::
      b.ep[e] == a.ep[e] && L(b.lists, Wait(e)) == L(a.lists, Wait(e)) && L(b.lists, Tail(e)) == L(a.lists, Tail(e))
  }

  /** In the hands of a driver routine that is suspended. */
  predicate Busy(s: St, p: Place) {
    p.Hand? || (p.Wait? && p.e < |s.ep| && s.ep[p.e].open && s.ep[p.e].skip)
  }

  /** Such descriptors are left alone, apart from those of list `p`. */
  ghost predicate StableBut(a: St, b: St, p: Place) {
    && |a.own| == |a.td| == |b.own| == |b.td|
    && forall d: nat | d < |a.own| && Busy(a, a.own[d]) && a.own[d] != p :: b.own[d] == a.own[d] && b.td[d] == a.td[d]
  }

  /** The lists that running driver routines hold are as they were. */
  ghost predicate ListsKept(a: St, b: St) {
    && |b.td| == |a.td| && |b.req| == |a.req| && L(b.lists, Held) == L(a.lists, Held) && Frozen(a, b)
    && (forall p: Place | p.Hand? :: L(b.lists, p) == L(a.lists, p))
  }

  /** So are the descriptors on them, and the requests follow the history. */
  ghost predicate Keeps(a: St, b: St) {
    ListsKept(a, b) && StableBut(a, b, Held) && Grew(a, b)
  }

  lemma KeepsTrans(a: St, b: St, c: St)
    requires Keeps(a, b) && Keeps(b, c)
    ensures Keeps(a, c)
  {
    GrewTrans(a, b, c);
    hide Grew;
  }

  predicate OnDone(p: Place) {
    p.DoneHw? || p.DoneHcca?
  }

  predicate Suffix(s: seq<nat>, t: seq<nat>) {
    |s| <= |t| && s == t[|t| - |s|..]
  }

  /** A descriptor the controller has not retired is as it was. */
  predicate SameTd(p: Place, t: Td, p': Place, t': Td) {
    && (p'.Wait? ==> p' == p && t' == t) && (OnDone(p) ==> OnDone(p')) && (p.Wait? ==> p' == p || OnDone(p'))
    && (!p.Wait? ==> t' == t) && (!p.Wait? && !p.DoneHw? ==> p' == p)
  }

  /** An endpoint's pointers: the tail stays, a head left behind is on a done list. */
  predicate SameEp(x: Ep, x': Ep, own: seq<Place>) {
    x'.tailp == x.tailp && (x'.headp == x.headp || (0 <= x.headp < |own| && OnDone(own[x.headp])))
  }

  /** Queues only lose descriptors from the front, to the done lists. */
  ghost predicate Drained(a: St, b: St) {
    && |a.own| == |b.own| == |a.td| == |b.td| && |a.ep| == |b.ep|
    && (forall e: nat | e < |a.ep| :: Suffix(L(b.lists, Wait(e)), L(a.lists, Wait(e))))
    && (forall d: nat | d < |a.own| :: SameTd(a.own[d], a.td[d], b.own[d], b.td[d]))
  }

  ghost predicate HwQueues(a: St, b: St) {
    Drained(a, b) && (forall e: nat | e < |a.ep| :: SameEp(a.ep[e], b.ep[e], b.own))
  }

  /** The controller also leaves the free list, the dummies, the requests and the
      submission in progress alone. */
  ghost predicate HwKeeps(a: St, b: St) {
    && ListsKept(a, b) && b.sub == a.sub && b.req == a.req && b.freelist == a.freelist && b.log == a.log
    && L(b.lists, Free) == L(a.lists, Free) && (forall p: Place | p.Tail? :: L(b.lists, p) == L(a.lists, p))
    && (forall e: nat | e < |a.ep| :: b.ep[e].open == a.ep[e].open && b.ep[e].skip == a.ep[e].skip)
    && |a.acct| == |b.acct| && (forall r: nat | r < |a.acct| :: SameRuns(a.acct[r], b.acct[r]))
    && (a.wdh ==> b.wdh && b.hcca == a.hcca && L(b.lists, DoneHcca) == L(a.lists, DoneHcca))
    && HwQueues(a, b)
  }

  lemma QueuesRefl(a: St)
    requires |a.own| == |a.td|
    ensures HwQueues(a, a)
  {
  }

  lemma QueuesTrans(a: St, b: St, c: St)
    requires HwQueues(a, b) && HwQueues(b, c)
    ensures HwQueues(a, c)
  {
    forall e: nat | e < |a.ep|
      ensures Suffix(L(c.lists, Wait(e)), L(a.lists, Wait(e))) && SameEp(a.ep[e], c.ep[e], c.own)
    {
      assert Suffix(L(b.lists, Wait(e)), L(a.lists, Wait(e))) && Suffix(L(c.lists, Wait(e)), L(b.lists, Wait(e)));
      assert SameEp(a.ep[e], b.ep[e], b.own) && SameEp(b.ep[e], c.ep[e], c.own);
      var h := a.ep[e].headp;
      assert 0 <= h < |b.own| ==> SameTd(b.own[h], b.td[h], c.own[h], c.td[h]);
    }
    forall d: nat | d < |a.own|
      ensures SameTd(a.own[d], a.td[d], c.own[d], c.td[d])
    {
      assert SameTd(a.own[d], a.td[d], b.own[d], b.td[d]) && SameTd(b.own[d], b.td[d], c.own[d], c.td[d]);
    }
  }

  lemma HwRefl(a: St)
    requires |a.own| == |a.td|
    ensures HwKeeps(a, a)
  {
    QueuesRefl(a);
  }

  lemma HwTrans(a: St, b: St, c: St)
    requires HwKeeps(a, b) && HwKeeps(b, c)
    ensures HwKeeps(a, c)
  {
    hide HwQueues;
    QueuesTrans(a, b, c);
  }

  lemma Lengths(s: St)
    requires Inv(s)
    ensures |s.td| == |s.own| && |s.req| == |s.acct| && SubOk(s)
  {
  }

  lemma RetireKeeps(s: St, e: nat, k: int, cc: int)
    requires Inv(s) && CanRetire(s, e)
    ensures HwKeeps(s, RetireS(s, e, k, cc))
  {
    hide Inv;
    Lengths(s);
    RetireHead(s, e);
    RetireQueues(s, e, k, cc);
    hide HwQueues;
  }

  lemma RetireQueues(s: St, e: nat, k: int, cc: int)
    requires Inv(s) && CanRetire(s, e)
    ensures HwQueues(s, RetireS(s, e, k, cc))
  {
    hide Inv;
    Lengths(s);
    RetireHead(s, e);
    var n := RetireS(s, e, k, cc);
    assert L(n.lists, Wait(e)) == L(s.lists, Wait(e))[1..];
  }

  lemma WritebackKeeps(s: St)
    requires !s.wdh && |s.own| == |s.td|
    ensures HwKeeps(s, WritebackS(s))
  {
    WritebackQueues(s);
    hide HwQueues;
  }

  lemma WritebackQueues(s: St)
    requires |s.own| == |s.td|
    ensures HwQueues(s, WritebackS(s))
  {
  }

  // ----- The descriptors of a request

  /** Bytes of piece number `i`. */
  function PieceLen(len: nat, i: nat): int {
    if len - i * PKTLEN > PKTLEN then PKTLEN else len - i * PKTLEN
  }

  /** Descriptor `t` covers piece number `i` of the buffer. */
  predicate IsPiece(t: Td, r: nat, buf: int, len: nat, i: nat) {
    && t.ref == r && t.length == PieceLen(len, i) && t.cc == 15
    && if len == 0 then t.cbp == 0 && t.be == 0 else t.cbp == buf + i * PKTLEN && t.be == t.cbp + t.length - 1
  }

  /** The descriptors `ds` were queued behind `q`, in order, one for each piece of the
      buffer; some at the front may have been retired since. */
  ghost predicate Spread(s: St, e: nat, r: nat, buf: int, len: nat, q: seq<nat>, ds: seq<nat>) {
    && |s.own| == |s.td| && Suffix(L(s.lists, Wait(e)), q + ds)
    && forall i: nat | i < |ds| :: ds[i] < |s.td| && PieceAt(s.td[ds[i]], s.own[ds[i]], e, r, buf, len, i)
  }

  predicate PieceAt(t: Td, p: Place, e: nat, r: nat, buf: int, len: nat, i: nat) {
    OnDone(p) || (p == Wait(e) && IsPiece(t, r, buf, len, i))
  }

  lemma SpreadNone(s: St, e: nat, r: nat, buf: int, len: nat)
    requires |s.own| == |s.td|
    ensures Spread(s, e, r, buf, len, L(s.lists, Wait(e)), [])
  {
    assert L(s.lists, Wait(e)) + [] == L(s.lists, Wait(e));
  }

  lemma SpreadDrained(a: St, b: St, e: nat, r: nat, buf: int, len: nat, q: seq<nat>, ds: seq<nat>)
    requires Spread(a, e, r, buf, len, q, ds) && Drained(a, b) && e < |a.ep|
    ensures Spread(b, e, r, buf, len, q, ds)
  {
    hide IsPiece;
    forall i: nat | i < |ds|
      ensures PieceAt(b.td[ds[i]], b.own[ds[i]], e, r, buf, len, i)
    {
      var d := ds[i];
      assert SameTd(a.own[d], a.td[d], b.own[d], b.td[d]) && PieceAt(a.td[d], a.own[d], e, r, buf, len, i);
    }
  }

  /** What queueing one more piece does to the queue. */
  ghost predicate Chunked(a: St, c: St, e: nat, cur: nat, t: Td) {
    && |a.own| == |c.own| == |a.td| == |c.td| && cur < |a.td| && a.own[cur] == Tail(e) && c.own[cur] == Wait(e)
    && c.td[cur] == t && L(c.lists, Wait(e)) == L(a.lists, Wait(e)) + [cur]
    && forall d: nat | d < |a.td| && d != cur && (a.own[d] == Wait(e) || OnDone(a.own[d])) ::
         c.own[d] == a.own[d] && c.td[d] == a.td[d]
  }

  lemma SpreadMore(a: St, c: St, e: nat, r: nat, buf: int, len: nat, q: seq<nat>, ds: seq<nat>, cur: nat, t: Td)
    requires Spread(a, e, r, buf, len, q, ds) && Chunked(a, c, e, cur, t) && IsPiece(t, r, buf, len, |ds|)
    ensures Spread(c, e, r, buf, len, q, ds + [cur])
  {
    hide IsPiece;
    var n := ds + [cur];
    forall i: nat | i < |n|
      ensures n[i] < |c.td| && PieceAt(c.td[n[i]], c.own[n[i]], e, r, buf, len, i)
    {
      if i < |ds| {
        assert PieceAt(a.td[ds[i]], a.own[ds[i]], e, r, buf, len, i);
      }
    }
    assert q + n == q + ds + [cur];
  }

  // ----- Where the steps lead

  predicate CanStep(s: St, h: HwStep)
  {
    match h
    case Retire(e, k, _) =>
      && e < |s.ep| && s.ep[e].open && !s.ep[e].skip && !s.ep[e].halted && s.ep[e].headp != s.ep[e].tailp
      && 0 <= s.ep[e].headp < |s.td| && 0 <= k <= s.td[s.ep[e].headp].length
    case Writeback(_) => !s.wdh
  }

  /** The state after a step; one that is not possible now does nothing. */
  ghost function HwS(s: St, h: HwStep): (n: St)
    requires Inv(s)
    ensures Inv(n)
  {
    if !CanStep(s, h) then s
    else match h
      case Retire(e, k, cc) => RetireInv(s, e, k, cc); RetireS(s, e, k, cc)
      case Writeback(_) => WritebackInv(s); WritebackS(s)
  }

  ghost function HwRunS(s: St, hs: seq<HwStep>): (n: St)
    requires Inv(s)
    ensures Inv(n)
    decreases |hs|
  {
    if hs == [] then s else HwS(HwRunS(s, hs[..|hs| - 1]), hs[|hs| - 1])
  }

  lemma HwStepKeeps(s: St, h: HwStep)
    requires Inv(s)
    ensures HwKeeps(s, HwS(s, h))
  {
    hide Inv, HwKeeps;
    Lengths(s);
    if !CanStep(s, h) {
      HwRefl(s);
    } else {
      match h
      case Retire(e, k, cc) => RetireKeeps(s, e, k, cc);
      case Writeback(_) => WritebackKeeps(s);
    }
  }

  lemma {:induction false} HwRunKeeps(s: St, hs: seq<HwStep>)
    requires Inv(s)
    ensures HwKeeps(s, HwRunS(s, hs))
    decreases |hs|
  {
    hide Inv, HwKeeps, HwS;
    if hs == [] {
      Lengths(s);
      HwRefl(s);
    } else {
      var n := |hs| - 1;
      HwRunKeeps(s, hs[..n]);
      HwStepKeeps(HwRunS(s, hs[..n]), hs[n]);
      HwTrans(s, HwRunS(s, hs[..n]), HwRunS(s, hs));
    }
  }

  // ----- The head pointer

  /** No step of `hs` retires a descriptor of endpoint `e`. */
  predicate Spares(hs: seq<HwStep>, e: nat) {
    forall i | 0 <= i < |hs| :: !(hs[i].Retire? && hs[i].e == e)
  }

  lemma StepSpares(s: St, h: HwStep, e: nat)
    requires Inv(s) && e < |s.ep| && (!(h.Retire? && h.e == e) || s.ep[e].halted || s.ep[e].headp == s.ep[e].tailp)
    ensures var n := HwS(s, h); |n.ep| == |s.ep| && n.ep[e] == s.ep[e]
  {
    hide Inv;
  }

  /** An endpoint that the controller cannot or does not serve keeps its pointers. */
  lemma {:induction false} RunSpares(s: St, hs: seq<HwStep>, e: nat)
    requires Inv(s) && e < |s.ep| && (Spares(hs, e) || s.ep[e].halted || s.ep[e].headp == s.ep[e].tailp)
    ensures var n := HwRunS(s, hs); |n.ep| == |s.ep| && n.ep[e] == s.ep[e]
    decreases |hs|
  {
    hide Inv;
    if hs != [] {
      var k := |hs| - 1;
      RunSpares(s, hs[..k], e);
      StepSpares(HwRunS(s, hs[..k]), hs[k], e);
    }
  }

  /** Retiring moves the head pointer. */
  lemma RetireMoves(s: St, e: nat)
    requires Inv(s) && CanRetire(s, e)
    ensures |HwRunS(s, [Retire(e, 0, 0)]).ep| == |s.ep| && HwRunS(s, [Retire(e, 0, 0)]).ep[e].headp != s.ep[e].headp
  {
    RetireHead(s, e);
    var q, d := L(s.lists, Wait(e)), s.ep[e].headp;
    assert EpOk(s.td, s.lists, s.ep[e], e, s.sub) && TdOk(s.td[d], s.own[d], |s.req|);
    LinkedTail(s.td, q, L(s.lists, Tail(e))[0]);
    if |q| > 1 {
      PartAt(s.lists, s.own, Wait(e), 1);
      assert q[1..][0] == q[1];
      QueueDistinct(s, e);
    } else {
      PartAt(s.lists, s.own, Tail(e), 0);
    }
    hide Inv;
    var hs := [Retire(e, 0, 0)];
    assert hs[..0] == [] && HwRunS(s, []) == s;
    assert CanStep(s, hs[0]);
  }

  lemma QueueDistinct(s: St, e: nat)
    requires Inv(s) && |L(s.lists, Wait(e))| > 1
    ensures L(s.lists, Wait(e))[0] != L(s.lists, Wait(e))[1]
  {
    hide FreeOk, DonesOk, EpsOk, TdsOk, ReqsOk;
  }

  /** A head pointer loaded now is still right at any later time, whatever the controller
      does until then, exactly when the endpoint is halted or its queue is empty. */
  lemma HeadStable(s: St, e: nat)
    requires Inv(s) && e < |s.ep| && s.ep[e].open && !s.ep[e].skip
    ensures (forall hs: seq<HwStep> :: |HwRunS(s, hs).ep| == |s.ep| && HwRunS(s, hs).ep[e].headp == s.ep[e].headp)
            <==> s.ep[e].halted || s.ep[e].headp == s.ep[e].tailp
  {
    hide Inv, HwRunS;
    if s.ep[e].halted || s.ep[e].headp == s.ep[e].tailp {
      forall hs: seq<HwStep>
        ensures |HwRunS(s, hs).ep| == |s.ep| && HwRunS(s, hs).ep[e].headp == s.ep[e].headp
      {
        RunSpares(s, hs, e);
      }
    } else {
      RetireMoves(s, e);
    }
  }

  /** The driver's store of a head pointer loaded earlier, with the halt bit cleared. */
  ghost function StoreHead(s: St, e: nat, h: int): St
    requires e < |s.ep|
  {
    s.(ep := s.ep[e := s.ep[e].(headp := h, halted := false)])
  }

  /** The same descriptors, endpoints, requests and registers, whatever the bookkeeping. */
  predicate SameMemory(a: St, b: St) {
    && a.td == b.td && a.ep == b.ep && a.req == b.req
    && a.freelist == b.freelist && a.doneReg == b.doneReg && a.hcca == b.hcca && a.wdh == b.wdh
  }

  lemma {:induction false} LinkedUnique(td: seq<Td>, s: seq<nat>, t: seq<nat>)
    requires Linked(td, s, NIL) && Linked(td, t, NIL) && First(s, NIL) == First(t, NIL)
    ensures s == t
  {
    if s != [] {
      LinkedTail(td, s, NIL);
      LinkedTail(td, t, NIL);
      LinkedUnique(td, s[1..], t[1..]);
      assert s == [s[0]] + s[1..] && t == [t[0]] + t[1..];
    }
  }

  /** A descriptor on a done list is on it under any bookkeeping. */
  lemma DoneForAll(a: St, n: St, d: nat)
    requires Inv(a) && d < |a.own| && OnDone(a.own[d]) && Inv(n)
    requires a.td == n.td && a.doneReg == n.doneReg && a.hcca == n.hcca && a.wdh == n.wdh
    ensures d < |n.own| && OnDone(n.own[d])
  {
    hide FreeOk, EpsOk, TdsOk, ReqsOk;
    PartCover(a.lists, a.own, d);
    var p := a.own[d];
    var q := L(a.lists, p);
    assert Linked(a.td, q, NIL) && Linked(n.td, L(n.lists, p), NIL);
    LinkedUnique(a.td, q, L(n.lists, p));
    var i :| 0 <= i < |q| && q[i] == d;
    PartAt(n.lists, n.own, p, i);
  }

  /** The memory is that of no state in which the invariant holds. */
  ghost predicate Broken(s: St) {
    forall n: St | SameMemory(n, s) :: !Inv(n)
  }

  /** With an outdated head pointer stored, the invariant is lost for any bookkeeping:
      a retired descriptor is at the head of the queue again. */
  lemma StaleHead(x: St, e: nat, h: int, n: St)
    requires Inv(x) && e < |x.ep| && x.ep[e].open && !x.ep[e].skip && 0 <= h < |x.own| && OnDone(x.own[h])
    requires SameMemory(n, StoreHead(x, e, h))
    ensures !Inv(n)
  {
    if Inv(n) {
      DoneForAll(x, n, h);
      HeadOf(n, e);
    }
  }

  lemma HeadOf(n: St, e: nat)
    requires Inv(n) && e < |n.ep| && n.ep[e].open && !n.ep[e].skip
    ensures 0 <= n.ep[e].headp < |n.own| && !OnDone(n.own[n.ep[e].headp])
  {
    hide FreeOk, DonesOk, TdsOk, ReqsOk;
    assert EpOk(n.td, n.lists, n.ep[e], e, n.sub);
    PartAt(n.lists, n.own, Tail(e), 0);
    if L(n.lists, Wait(e)) != [] {
      PartAt(n.lists, n.own, Wait(e), 0);
    }
  }

  lemma StaleBreaks(x: St, e: nat, h: int)
    requires Inv(x) && e < |x.ep| && x.ep[e].open && !x.ep[e].skip && 0 <= h < |x.own| && OnDone(x.own[h])
    ensures Broken(StoreHead(x, e, h))
  {
    hide Inv;
    forall n: St | SameMemory(n, StoreHead(x, e, h))
      ensures !Inv(n)
    {
      StaleHead(x, e, h, n);
    }
  }

  /** Where the controller can retire a descriptor, it can do so between the load and the
      store. */
  lemma LostUpdate(s: St, e: nat)
    requires Inv(s) && CanRetire(s, e)
    ensures var x := HwRunS(s, [Retire(e, 0, 0)]); |x.ep| == |s.ep| && Broken(StoreHead(x, e, s.ep[e].headp))
  {
    hide Inv, HwKeeps, Broken;
    RetireMoves(s, e);
    var hs := [Retire(e, 0, 0)];
    assert hs[..0] == [] && HwRunS(s, []) == s && HwRunS(s, hs) == HwS(s, hs[0]);
    HwStepKeeps(s, hs[0]);
    LeftHead(s, HwRunS(s, hs), e);
    StaleBreaks(HwRunS(s, hs), e, s.ep[e].headp);
  }

  lemma LeftHead(a: St, b: St, e: nat)
    requires HwKeeps(a, b) && e < |a.ep| && a.ep[e].headp != b.ep[e].headp
    ensures 0 <= a.ep[e].headp < |b.own| && OnDone(b.own[a.ep[e].headp])
    ensures b.ep[e].open == a.ep[e].open && b.ep[e].skip == a.ep[e].skip
  {
    assert SameEp(a.ep[e], b.ep[e], b.own);
  }

  /** A live endpoint with one descriptor of one byte, just submitted. */
  ghost function OneByte(): St {
    St([Td(1, 1, 0, 1, 0x1000, 0x1000, CC_NOTACCESSED), Td(NIL, NIL, NIL, 0, 0, 0, 0)],
       [Ep(true, false, false, 0, 1)], [Req(1, 1, 0, 0, true, false)], NIL, NIL, NIL, false,
       map[Wait(0) := [0], Tail(0) := [1]], [Wait(0), Tail(0)], [Acct(1, 0, 0, 0)], Idle,
       [Began(0, 1), Queued(0)])
  }

  /** The invariant holds there, and the controller can retire the descriptor. */
  lemma OneByteInv()
    ensures Inv(OneByte()) && CanRetire(OneByte(), 0)
  {
    OneBytePart();
    OneByteReqs();
    OneByteDone();
    OneByteEp();
    hide Part, ReqsOk, DonesOk, FreeOk, EpsOk;
  }

  lemma OneByteDone()
    ensures var s := OneByte(); FreeOk(s.td, s.lists, s.freelist) && DonesOk(s.td, s.lists, s.doneReg, s.hcca, s.wdh)
  {
    var s := OneByte();
    assert forall p: Place | p != Wait(0) && p != Tail(0) :: L(s.lists, p) == [];
  }

  lemma OneByteEp()
    ensures var s := OneByte(); EpsOk(s.td, s.lists, s.ep, s.sub)
  {
    var s := OneByte();
    assert L(s.lists, Wait(0)) == [0] && L(s.lists, Tail(0)) == [1] && [0][0 + 1..] == [];
  }

  lemma OneBytePart()
    ensures Part(OneByte().lists, OneByte().own)
  {
    var s := OneByte();
    assert forall p: Place :: L(s.lists, p) == if p == Wait(0) then [0] else if p == Tail(0) then [1] else [];
  }

  lemma OneByteReqs()
    ensures var s := OneByte(); ReqsOk(s.td, s.own, s.req, s.acct, s.sub)
  {
    var s := OneByte();
    assert Weights(s.td, s.own, 0, Count) == [1, 0];
    assert Weights(s.td, s.own, 0, Len) == [1, 0];
    assert Weights(s.td, s.own, 0, Bytes) == [0, 0];
    SumPair(1, 0);
    SumPair(0, 0);
  }

  lemma SumPair(x: int, y: int)
    ensures Sum([x, y]) == x + y
  {
    assert Sum([]) == 0;
    assert [x, y][..1] == [x] && [x][..0] == [];
    assert Sum([x]) == x;
  }

  /** Storing the head pointer that is there keeps the invariant. */
  lemma FreshHead(x: St, e: nat)
    requires Inv(x) && e < |x.ep|
    ensures Inv(StoreHead(x, e, x.ep[e].headp))
  {
    hide Inv;
    ResumeInv(x, e);
  }
}
