/** The state shared by the OHCI driver and its controller, and what every step of
    either keeps. Descriptors are numbered by their index in the two parallel pools. */
module OhciState {
  import opened PlaceLists
  import opened OhciPlaces

  const NIL: int := -1
  const CC_NOTACCESSED: int := 15
  const CC_CANCELLED: int := 0xFF
  const PKTLEN: nat := 8192 - 16

  /** ohci_td_t and ohci_transfer_t side by side: hardware link, free-list link,
      request, byte count, buffer pointer and end, completion code. */
  datatype Td = Td(next: int, tnext: int, ref: int, length: int, cbp: int, be: int, cc: int)

  datatype Ep = Ep(open: bool, skip: bool, halted: bool, headp: int, tailp: int)

  datatype Req = Req(length: int, tdcount: int, xferred: int, status: int, inprogress: bool, removing: bool)

  /** Bookkeeping about a request: submissions and completions so far; since the last
      submission, bytes the controller moved and bytes its processed descriptors
      fell short by. */
  datatype Acct = Acct(submitted: nat, completed: nat, moved: int, short: int)

  /** The submission in progress, if any, with the bytes not yet given a descriptor. */
  datatype Submission = Idle | Sub(e: nat, r: nat, left: nat)

  /** What happens to requests: one is submitted, gets a descriptor, or has descriptor `d`
      accounted to it from list `p`, with the bytes it moved and its completion code. */
  datatype Event = Began(r: int, len: nat) | Queued(r: int) | Settled(d: nat, p: Place, r: int, got: int, cc: int)

  datatype St = St(td: seq<Td>, ep: seq<Ep>, req: seq<Req>, freelist: int, doneReg: int, hcca: int, wdh: bool,
                   lists: Lists<Place>, own: seq<Place>, acct: seq<Acct>, sub: Submission, log: seq<Event>)

  // ----- Lists<Place> in memory

  function First(s: seq<nat>, end: int): int {
    if s == [] then end else s[0]
  }

  /** The hardware links run through `s` and end at `end`. */
  ghost predicate Linked(td: seq<Td>, s: seq<nat>, end: int) {
    forall i: nat | i < |s| :: s[i] < |td| && td[s[i]].next == First(s[i + 1..], end)
  }

  /** The same for the free-list links. */
  ghost predicate FreeLinked(td: seq<Td>, s: seq<nat>) {
    forall i: nat | i < |s| :: s[i] < |td| && td[s[i]].tnext == First(s[i + 1..], NIL)
  }

  lemma LinkedTail(td: seq<Td>, s: seq<nat>, end: int)
    requires Linked(td, s, end) && s != []
    ensures s[0] < |td| && td[s[0]].next == First(s[1..], end) && Linked(td, s[1..], end)
  {
    forall i: nat | i < |s[1..]|
      ensures s[1..][i] < |td| && td[s[1..][i]].next == First(s[1..][i + 1..], end)
    {
      assert s[1..][i] == s[i + 1] && s[1..][i + 1..] == s[i + 1 + 1..];
    }
  }

  lemma LinkedCons(td: seq<Td>, d: nat, s: seq<nat>, end: int)
    requires Linked(td, s, end) && d < |td| && td[d].next == First(s, end)
    ensures Linked(td, [d] + s, end)
  {
    var n := [d] + s;
    forall i: nat | i < |n|
      ensures n[i] < |td| && td[n[i]].next == First(n[i + 1..], end)
    {
      if i == 0 {
        assert n[1..] == s;
      } else {
        assert n[i] == s[i - 1] && n[i + 1..] == s[i - 1 + 1..];
      }
    }
  }

  lemma LinkedSnoc(td: seq<Td>, s: seq<nat>, d: nat, end: int)
    requires Linked(td, s, d) && d < |td| && td[d].next == end
    ensures Linked(td, s + [d], end)
  {
    var n := s + [d];
    forall i: nat | i < |n|
      ensures n[i] < |td| && td[n[i]].next == First(n[i + 1..], end)
    {
      if i < |s| {
        assert n[i] == s[i] && n[i + 1..] == s[i + 1..] + [d];
      } else {
        assert n[i + 1..] == [];
      }
    }
  }

  lemma LinkedFrame(td: seq<Td>, d: nat, t: Td, s: seq<nat>, end: int)
    requires Linked(td, s, end) && d < |td| && (d !in s || t.next == td[d].next)
    ensures Linked(td[d := t], s, end)
  {
    forall i: nat | i < |s|
      ensures s[i] < |td| && td[d := t][s[i]].next == First(s[i + 1..], end)
    {
      assert td[s[i]].next == First(s[i + 1..], end);
    }
  }

  lemma FreeFrame(td: seq<Td>, d: nat, t: Td, s: seq<nat>)
    requires FreeLinked(td, s) && d < |td| && (d !in s || t.tnext == td[d].tnext)
    ensures FreeLinked(td[d := t], s)
  {
    forall i: nat | i < |s|
      ensures s[i] < |td| && td[d := t][s[i]].tnext == First(s[i + 1..], NIL)
    {
      assert td[s[i]].tnext == First(s[i + 1..], NIL);
    }
  }

  lemma FreeTail(td: seq<Td>, s: seq<nat>)
    requires FreeLinked(td, s) && s != []
    ensures s[0] < |td| && td[s[0]].tnext == First(s[1..], NIL) && FreeLinked(td, s[1..])
  {
    forall i: nat | i < |s[1..]|
      ensures s[1..][i] < |td| && td[s[1..][i]].tnext == First(s[1..][i + 1..], NIL)
    {
      assert s[1..][i] == s[i + 1] && s[1..][i + 1..] == s[i + 1 + 1..];
    }
  }

  lemma FreeCons(td: seq<Td>, d: nat, s: seq<nat>)
    requires FreeLinked(td, s) && d < |td| && td[d].tnext == First(s, NIL)
    ensures FreeLinked(td, [d] + s)
  {
    var n := [d] + s;
    forall i: nat | i < |n|
      ensures n[i] < |td| && td[n[i]].tnext == First(n[i + 1..], NIL)
    {
      if i == 0 {
        assert n[1..] == s;
      } else {
        assert n[i] == s[i - 1] && n[i + 1..] == s[i - 1 + 1..];
      }
    }
  }

  // ----- Accounting

  /** Bytes a retired descriptor moved, as the driver works it out. */
  function Got(t: Td): int {
    if t.cbp == 0 then t.length else t.length - (t.be - t.cbp + 1)
  }

  predicate Retired(p: Place) {
    p.DoneHw? || p.DoneHcca? || p.Hand?
  }

  /** Not yet accounted to its request. */
  predicate Out(p: Place) {
    p.Wait? || Retired(p)
  }

  datatype Kind = Count | Len | Bytes

  function Weight(t: Td, p: Place, r: int, k: Kind): int {
    if t.ref != r then 0
    else match k
      case Count => if Out(p) then 1 else 0
      case Len => if Out(p) then t.length else 0
      case Bytes => if Retired(p) then Got(t) else 0
  }

  function Weights(td: seq<Td>, own: seq<Place>, r: int, k: Kind): seq<int>
    requires |td| == |own|
  {
    seq(|td|, d requires 0 <= d < |td| => Weight(td[d], own[d], r, k))
  }

  ghost function Total(td: seq<Td>, own: seq<Place>, r: int, k: Kind): int
    requires |td| == |own|
  {
    Sum(Weights(td, own, r, k))
  }

  lemma TotalUpdate(td: seq<Td>, own: seq<Place>, d: nat, t: Td, p: Place, r: int, k: Kind)
    requires |td| == |own| && d < |td|
    ensures Total(td[d := t], own[d := p], r, k) ==
      Total(td, own, r, k) - Weight(td[d], own[d], r, k) + Weight(t, p, r, k)
  {
    SumUpdate(Weights(td, own, r, k), d, Weight(t, p, r, k));
    assert Weights(td[d := t], own[d := p], r, k) == Weights(td, own, r, k)[d := Weight(t, p, r, k)];
  }

  /** A descriptor as the driver or the controller left it. */
  predicate TdOk(t: Td, p: Place, nreq: nat) {
    && (Out(p) ==> 0 <= t.ref < nreq && 0 <= t.length)
    && (p.Wait? ==> if t.length == 0 then t.cbp == 0 && t.be == 0 else t.cbp > 0 && t.be == t.cbp + t.length - 1)
    && (Retired(p) ==> 0 <= Got(t) <= t.length)
  }

  ghost predicate TdsOk(td: seq<Td>, own: seq<Place>, nreq: nat) {
    |td| == |own| && forall d: nat | d < |td| :: TdOk(td[d], own[d], nreq)
  }

  function LeftOf(sub: Submission, r: nat): nat {
    if sub.Sub? && sub.r == r then sub.left else 0
  }

  /** One request's counters. */
  ghost predicate ReqOk(td: seq<Td>, own: seq<Place>, q: Req, a: Acct, sub: Submission, r: nat)
    requires |td| == |own|
  {
    && q.tdcount == Total(td, own, r, Count)
    && q.xferred + Total(td, own, r, Bytes) == a.moved
    && (a.submitted > 0 ==> q.xferred + a.short + Total(td, own, r, Len) + LeftOf(sub, r) == q.length)
    && a.submitted == a.completed + (if q.inprogress then 1 else 0)
    && (if sub.Sub? && sub.r == r then q.inprogress else q.inprogress <==> q.tdcount > 0)
  }

  ghost predicate ReqsOk(td: seq<Td>, own: seq<Place>, req: seq<Req>, acct: seq<Acct>, sub: Submission) {
    |td| == |own| && |req| == |acct| && forall r: nat | r < |req| :: ReqOk(td, own, req[r], acct[r], sub, r)
  }

  // ----- The invariant

  /** The queue of endpoint `e`: linked up to its dummy; the tail pointer names the
      dummy, except that during a submission it lags behind. */
  ghost predicate EpOk(td: seq<Td>, lists: Lists<Place>, x: Ep, e: nat, sub: Submission) {
    var q, t := L(lists, Wait(e)), L(lists, Tail(e));
    if !x.open then q == [] && t == [] && !(sub.Sub? && sub.e == e)
    else
      && |t| == 1 && Linked(td, q, t[0])
      && (!x.skip ==> x.headp == First(q, t[0]))
      && (if sub.Sub? && sub.e == e then !x.skip && (x.tailp == t[0] || x.tailp in q) else x.tailp == t[0])
  }

  ghost predicate EpsOk(td: seq<Td>, lists: Lists<Place>, ep: seq<Ep>, sub: Submission) {
    forall e: nat | e < |ep| :: EpOk(td, lists, ep[e], e, sub)
  }

  ghost predicate DonesOk(td: seq<Td>, lists: Lists<Place>, doneReg: int, hcca: int, wdh: bool) {
    && (forall p: Place | Retired(p) :: Linked(td, L(lists, p), NIL))
    && doneReg == First(L(lists, DoneHw), NIL)
    && (if wdh then hcca == First(L(lists, DoneHcca), NIL) else L(lists, DoneHcca) == [])
  }

  ghost predicate FreeOk(td: seq<Td>, lists: Lists<Place>, freelist: int) {
    FreeLinked(td, L(lists, Free)) && freelist == First(L(lists, Free), NIL)
  }

  ghost predicate SubOk(s: St) {
    s.sub.Sub? ==> s.sub.e < |s.ep| && s.sub.r < |s.req|
  }

  ghost predicate Inv(s: St) {
    && |s.td| == |s.own| && |s.req| == |s.acct| && SubOk(s)
    && Part(s.lists, s.own)
    && FreeOk(s.td, s.lists, s.freelist)
    && DonesOk(s.td, s.lists, s.doneReg, s.hcca, s.wdh)
    && EpsOk(s.td, s.lists, s.ep, s.sub)
    && TdsOk(s.td, s.own, |s.req|)
    && ReqsOk(s.td, s.own, s.req, s.acct, s.sub)
  }

  // ----- What a move between two other lists leaves alone

  lemma NotIn(lists: Lists<Place>, own: seq<Place>, p: Place, d: nat)
    requires Part(lists, own) && d < |own| && own[d] != p
    ensures d !in L(lists, p)
  {
  }

  lemma EpKept(td: seq<Td>, own: seq<Place>, lists: Lists<Place>, n: Lists<Place>, d: nat, t: Td, x: Ep, e: nat,
      sub: Submission)
    requires Part(lists, own) && |td| == |own| && d < |td| && EpOk(td, lists, x, e, sub)
    requires own[d] != Wait(e) || t.next == td[d].next
    requires L(n, Wait(e)) == L(lists, Wait(e)) && L(n, Tail(e)) == L(lists, Tail(e))
    ensures EpOk(td[d := t], n, x, e, sub)
  {
    hide Part, Linked;
    if x.open {
      if own[d] != Wait(e) {
        NotIn(lists, own, Wait(e), d);
      }
      LinkedFrame(td, d, t, L(lists, Wait(e)), L(lists, Tail(e))[0]);
    }
  }

  lemma DoneKept(td: seq<Td>, own: seq<Place>, lists: Lists<Place>, d: nat, t: Td, p: Place)
    requires Part(lists, own) && |td| == |own| && d < |td| && Linked(td, L(lists, p), NIL)
    requires own[d] != p || t.next == td[d].next
    ensures Linked(td[d := t], L(lists, p), NIL)
  {
    hide Part, Linked;
    if own[d] != p {
      NotIn(lists, own, p, d);
    }
    LinkedFrame(td, d, t, L(lists, p), NIL);
  }

  lemma FreeKept(td: seq<Td>, own: seq<Place>, lists: Lists<Place>, n: Lists<Place>, d: nat, t: Td, freelist: int)
    requires Part(lists, own) && |td| == |own| && d < |td| && FreeOk(td, lists, freelist)
    requires own[d] != Free || t.tnext == td[d].tnext
    requires L(n, Free) == L(lists, Free)
    ensures FreeOk(td[d := t], n, freelist)
  {
    hide Part, FreeLinked;
    if own[d] != Free {
      NotIn(lists, own, Free, d);
    }
    FreeFrame(td, d, t, L(lists, Free));
  }

  lemma TdsKept(td: seq<Td>, own: seq<Place>, d: nat, t: Td, p: Place, nreq: nat)
    requires TdsOk(td, own, nreq) && d < |td| && TdOk(t, p, nreq)
    ensures TdsOk(td[d := t], own[d := p], nreq)
  {
    hide TdOk;
  }

  /** A request whose weights at `d` do not change. */
  lemma ReqKept(td: seq<Td>, own: seq<Place>, d: nat, t: Td, p: Place, q: Req, a: Acct, sub: Submission, r: nat)
    requires |td| == |own| && d < |td| && ReqOk(td, own, q, a, sub, r)
    requires forall k: Kind :: Weight(t, p, r, k) == Weight(td[d], own[d], r, k)
    ensures ReqOk(td[d := t], own[d := p], q, a, sub, r)
  {
    hide Weight, Total;
    TotalUpdate(td, own, d, t, p, r, Count);
    TotalUpdate(td, own, d, t, p, r, Bytes);
    TotalUpdate(td, own, d, t, p, r, Len);
  }
}
