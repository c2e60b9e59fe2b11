/** The OHCI driver's transfer routines at work on their descriptor pools. Everything
    the controller or a completion callback may do in between is a parameter, so the
    contracts hold for every interleaving. Two things in the source can go wrong, and a
    run ends there: a submission stores a head pointer that the controller has moved on
    meanwhile, or an interrupt finds a done head with bit 0 set. */
module Ohci {
  import opened PlaceLists
  import opened OhciPlaces
  import opened OhciState
  import opened OhciSteps
  import opened OhciLog
  import opened OhciHw
  import opened OhciActs
  import opened OhciRounds

  /** How a call ends: as intended; with a head pointer overwritten by an outdated one;
      or at an address that is no descriptor's. */
  datatype Fate = Fine | Lost | Wild

  predicate AllEven(hw: seq<seq<HwStep>>) {
    forall i | 0 <= i < |hw| :: Even(hw[i])
  }

  /** The head pointer was loaded in state `at`; the store is fine exactly when the
      controller's steps `mid` in between have left it alone. */
  ghost predicate Stored(at: St, e: nat, mid: seq<HwStep>, fate: Fate) {
    && Inv(at) && e < |at.ep| == |HwRunS(at, mid).ep| && at.ep[e].open && !at.ep[e].skip
    && fate == if HwRunS(at, mid).ep[e].headp == at.ep[e].headp then Fine else Lost
  }

  /** The descriptor of one chunk. */
  function PieceTd(n: nat, r: nat, amt: nat, ptr: int): Td {
    Td(n, n, r, amt, if amt == 0 then 0 else ptr, if amt == 0 then 0 else ptr + amt - 1, CC_NOTACCESSED)
  }

  /** Controller steps that set bit 0 of no done head. */
  predicate Even(hs: seq<HwStep>) {
    forall i | 0 <= i < |hs| :: hs[i].Writeback? ==> !hs[i].odd
  }

  /** Runs in which no done head has bit 0 set and the controller retires nothing of an
      endpoint between a submission's load and store of its head pointer. */
  predicate Tame(act: Act) {
    match act
    case Create(_, hw) => Even(hw)
    case Submit(e, _, _, _, rounds, last, mid) =>
      AllEven(rounds) && Even(last) && Even(mid) && Spares(mid, e)
    case Hardware(step) => Even([step])
    case Interrupt(hw, calls) => Even(hw) && TameCalls(calls)
    case Delete(_, hw, calls, last) => Even(hw) && TameCalls(calls) && Even(last)
  }

  predicate TameActs(acts: Acts) {
    acts.Then? ==> Tame(acts.act) && TameActs(acts.rest)
  }

  predicate TameCalls(calls: Calls) {
    calls.Calls? ==> Even(calls.before) && TameActs(calls.first) && Even(calls.after) && TameCalls(calls.more)
  }

  predicate Submitted(a: Acct, b: Acct) {
    b.submitted == a.submitted + 1 && b.completed == a.completed
  }

  /** Nothing is being processed at this depth or deeper. */
  ghost predicate Clear(lists: Lists<Place>, depth: nat) {
    forall p: Place | p.Hand? && p.depth >= depth :: L(lists, p) == []
  }

  lemma ChunksStep(len: nat)
    requires len > 0
    ensures len <= PKTLEN ==> Chunks(len) == 1
    ensures len > PKTLEN ==> Chunks(len) == Chunks(len - PKTLEN) + 1
  {
  }

  function Range(lo: nat, hi: nat): (r: seq<nat>)
    requires lo <= hi
    ensures |r| == hi - lo && forall i | 0 <= i < |r| :: r[i] == lo + i
    decreases hi - lo
  {
    if lo == hi then [] else [lo] + Range(lo + 1, hi)
  }

  class Controller {
    const td: array<Td>
    const ep: array<Ep>
    const req: array<Req>
    var freelist: int
    var doneReg: int
    var hcca: int
    var wdh: bool
    /** Bit 0 of the done head. */
    var odd: bool
    ghost var lists: Lists<Place>
    ghost var own: seq<Place>
    ghost var acct: seq<Acct>
    ghost var sub: Submission
    ghost var log: seq<Event>

    ghost function Snap(): St
      reads this, td, ep, req
    {
      St(td[..], ep[..], req[..], freelist, doneReg, hcca, wdh, lists, own, acct, sub, log)
    }

    ghost predicate Valid()
      reads this, td, ep, req
    {
      Inv(Snap())
    }

    /** _ohci_initpools: every descriptor is put on the free list. */
    constructor (npool: nat, nept: nat, requests: array<Req>)
      requires forall i | 0 <= i < requests.Length :: requests[i].tdcount == 0 && !requests[i].inprogress
      ensures Valid() && fresh(td) && fresh(ep) && req == requests && td.Length == npool && ep.Length == nept
      ensures sub.Idle? && Clear(lists, 0) && L(lists, Held) == [] && |L(lists, Free)| == npool && !odd
    {
      td := new Td[npool](_ => Td(NIL, NIL, NIL, 0, 0, 0, 0));
      ep := new Ep[nept](_ => Ep(false, false, false, NIL, NIL));
      req := requests;
      freelist, doneReg, hcca, wdh, odd := NIL, NIL, NIL, false, false;
      lists := map[Held := Range(0, npool)];
      own := seq(npool, _ => Held);
      acct := seq(requests.Length,
        i requires 0 <= i < requests.Length reads requests => Acct(0, 0, requests[i].xferred, 0));
      sub, log := Idle, [];
      new;
      InitInv(Snap());
      InitPools();
    }

    method InitPools()
      requires Valid() && sub.Idle? && lists == map[Held := Range(0, td.Length)]
      modifies this, td
      ensures Valid() && sub.Idle? && Clear(lists, 0) && L(lists, Held) == [] && |L(lists, Free)| == td.Length
      ensures odd == old(odd)
    {
      hide Inv;
      for idx := 0 to td.Length
        invariant Valid() && sub.Idle? && Clear(lists, 0) && odd == old(odd)
        invariant L(lists, Held) == Range(idx, td.Length) && |L(lists, Free)| == idx
      {
        FreeXfer(idx);
      }
    }

    // ----- Free list

    method AllocXfer() returns (d: int)
      requires Valid()
      modifies this, td
      ensures Valid()
      ensures old(L(lists, Free)) == [] ==> d == NIL && Snap() == old(Snap())
      ensures old(L(lists, Free)) != [] ==>
        && d == old(L(lists, Free))[0] < td.Length == |old(own)| && Snap() == AllocS(old(Snap()))
        && L(lists, Held) == [d] + old(L(lists, Held))
      ensures odd == old(odd)
    {
      hide Inv;
      ghost var s := Snap();
      FreeHead(s);
      d := freelist;
      if d == NIL {
        return;
      }
      AllocInv(s);
      freelist := td[d].tnext;
      td[d] := Td(NIL, NIL, NIL, td[d].length, 0, 0, 0);
      lists, own := MoveFront(lists, Free, Held), own[d := Held];
      assert Snap() == AllocS(s);
    }

    method FreeXfer(d: nat)
      requires Valid() && L(lists, Held) != [] && L(lists, Held)[0] == d
      modifies this, td
      ensures Valid() && d < td.Length == |old(own)| && Snap() == FreeS(old(Snap()))
      ensures L(lists, Held) == old(L(lists, Held))[1..] && odd == old(odd)
    {
      hide Inv;
      ghost var s := Snap();
      FreeInv(s);
      td[d] := td[d].(tnext := freelist);
      freelist := d;
      lists, own := MoveFront(lists, Held, Free), own[d := Free];
      assert Snap() == FreeS(s);
    }

    // ----- The controller's side

    method HwRetire(e: nat, k: int, cc: int)
      requires Valid() && CanRetire(Snap(), e) && 0 <= ep[e].headp < td.Length && 0 <= k <= td[ep[e].headp].length
      modifies this, td, ep
      ensures Valid() && HwKeeps(old(Snap()), Snap())
      ensures Snap() == RetireS(old(Snap()), e, k, cc) && odd == old(odd)
    {
      hide Inv, HwKeeps;
      ghost var s := Snap();
      RetireHead(s, e);
      RetireInv(s, e, k, cc);
      Lengths(s);
      var d := ep[e].headp;
      var t := td[d];
      td[d] := RetiredTd(t, k, cc, doneReg);
      doneReg := d;
      ep[e] := ep[e].(headp := t.next, halted := cc != 0);
      lists, own := MoveFront(lists, Wait(e), DoneHw), own[d := DoneHw];
      acct := acct[t.ref := acct[t.ref].(moved := acct[t.ref].moved + k)];
      assert Snap() == RetireS(s, e, k, cc);
      RetireKeeps(s, e, k, cc);
    }

    method HwWriteback()
      requires Valid() && !wdh
      modifies this
      ensures Valid() && HwKeeps(old(Snap()), Snap()) && Snap() == WritebackS(old(Snap()))
    {
      hide Inv, HwKeeps;
      ghost var s := Snap();
      WritebackInv(s);
      hcca, doneReg, wdh := doneReg, NIL, true;
      lists, own := Renamed(lists, DoneHw, DoneHcca), RenamedOwn(own, DoneHw, DoneHcca);
      assert Snap() == WritebackS(s);
      Lengths(s);
      WritebackKeeps(s);
    }

    /** Any controller step that is possible now; others do nothing. */
    method HwAct(h: HwStep)
      requires Valid()
      modifies this, td, ep
      ensures Valid() && Snap() == HwS(old(Snap()), h) && HwKeeps(old(Snap()), Snap())
      ensures !old(odd) && Even([h]) ==> !odd
    {
      hide Inv, HwKeeps;
      HwStepKeeps(Snap(), h);
      assert [h][0] == h;
      match h
      case Retire(e, k, cc) =>
        if e < ep.Length && ep[e].open && !ep[e].skip && !ep[e].halted && ep[e].headp != ep[e].tailp {
          RetireHead(Snap(), e);
          if 0 <= k <= td[ep[e].headp].length {
            HwRetire(e, k, cc);
          }
        }
      case Writeback(o) =>
        if !wdh {
          HwWriteback();
          odd := o;
        }
    }

    method HwRun(hs: seq<HwStep>)
      requires Valid()
      modifies this, td, ep
      ensures Valid() && Snap() == HwRunS(old(Snap()), hs) && HwKeeps(old(Snap()), Snap())
      ensures !old(odd) && Even(hs) ==> !odd
    {
      hide Inv, HwKeeps, HwS;
      ghost var s := Snap();
      Lengths(s);
      HwRefl(s);
      assert hs[..0] == [];
      for i := 0 to |hs|
        invariant Valid() && Snap() == HwRunS(s, hs[..i]) && HwKeeps(s, Snap()) && (!old(odd) && Even(hs) ==> !odd)
      {
        ghost var a := Snap();
        HwAct(hs[i]);
        HwTrans(s, a, Snap());
        assert hs[..i + 1][..i] == hs[..i] && [hs[i]][0] == hs[i];
      }
      assert hs[..|hs|] == hs;
    }

    // ----- ohci_xfer

    /** Fills the dummy `cur` with a chunk and makes `n` the dummy. */
    method FillChunk(cur: nat, n: nat, r: nat, amt: nat, ptr: int)
      requires Valid() && CanChunk(Snap(), amt, if amt == 0 then 0 else ptr) && sub.r == r
      requires L(lists, Tail(sub.e)) == [cur] && L(lists, Held)[0] == n
      modifies this, td, req
      ensures Valid() && Snap() == ChunkS(old(Snap()), amt, if amt == 0 then 0 else ptr) && odd == old(odd)
    {
      hide Inv;
      ghost var s := Snap();
      ghost var cbp := if amt == 0 then 0 else ptr;
      ChunkHeads(s);
      ChunkInv(s, amt, cbp);
      td[cur] := PieceTd(n, r, amt, ptr);
      req[r] := req[r].(tdcount := req[r].tdcount + 1);
      lists, own := ChunkLists(lists, sub.e), own[cur := Wait(sub.e)][n := Tail(sub.e)];
      sub, log := Sub(sub.e, r, sub.left - amt), log + [Queued(r)];
      assert Snap() == ChunkS(s, amt, cbp);
    }

    /** One round of the submission loop: allocate, fill, link. */
    method PushChunk(cur: nat, r: nat, amt: nat, ptr: int) returns (n: nat)
      requires Valid() && sub.Sub? && sub.r == r && amt <= sub.left && (amt > 0 ==> ptr > 0)
      requires L(lists, Tail(sub.e)) == [cur] && L(lists, Free) != []
      modifies this, td, req
      ensures Valid() && Keeps(old(Snap()), Snap())
      ensures r < req.Length && req[..] == old(req[..])[r := old(req[r]).(tdcount := old(req[r]).tdcount + 1)]
      ensures sub == Sub(old(sub).e, r, old(sub).left - amt) && acct == old(acct) && ep[..] == old(ep[..])
      ensures L(lists, Tail(sub.e)) == [n] && L(lists, Free) == old(L(lists, Free))[1..] && odd == old(odd)
      ensures Chunked(old(Snap()), Snap(), sub.e, cur, PieceTd(n, r, amt, ptr))
      ensures Snap() == ChunkT(old(Snap()), amt, if amt == 0 then 0 else ptr) && log == old(log) + [Queued(r)]
    {
      hide Inv, Chunked, Keeps, ChunkT, ChunkLists;
      ghost var a := Snap();
      Lengths(a);
      SameTail(a, sub.e);
      n := AllocXfer();
      ghost var b := Snap();
      FillChunk(cur, n, r, amt, ptr);
      Pushed(a, b, Snap(), cur, n, r, amt, ptr);
    }

    /** The same with controller steps behind it: one more piece is queued. */
    method PushPiece(cur: nat, r: nat, amt: nat, ptr: int, hw: seq<HwStep>,
                     ghost buf: int, ghost len: nat, ghost q: seq<nat>, ghost ds: seq<nat>)
      returns (n: nat)
      requires Valid() && sub.Sub? && sub.r == r && amt <= sub.left && (amt > 0 ==> ptr > 0)
      requires L(lists, Tail(sub.e)) == [cur] && L(lists, Free) != [] && Spread(Snap(), sub.e, r, buf, len, q, ds)
      requires amt == PieceLen(len, |ds|) && (len > 0 ==> amt > 0 && ptr == buf + |ds| * PKTLEN)
      modifies this, td, ep, req
      ensures Valid() && Keeps(old(Snap()), Snap())
      ensures r < req.Length && req[..] == old(req[..])[r := old(req[r]).(tdcount := old(req[r]).tdcount + 1)]
      ensures sub == Sub(old(sub).e, r, old(sub).left - amt) && L(lists, Tail(sub.e)) == [n]
      ensures L(lists, Free) == old(L(lists, Free))[1..] && Spread(Snap(), sub.e, r, buf, len, q, ds + [cur])
      ensures |acct| == |old(acct)| && forall i: nat | i < |acct| :: SameRuns(old(acct)[i], acct[i])
      ensures Snap() == PieceS(old(Snap()), amt, ptr, hw) && log == old(log) + [Queued(r)]
      ensures !old(odd) && Even(hw) ==> !odd
    {
      hide Inv, Keeps, Spread, Chunked, HwRunS, HwKeeps, Drained, ChunkT;
      ghost var a, e := Snap(), sub.e;
      n := PushChunk(cur, r, amt, ptr);
      SpreadMore(a, Snap(), e, r, buf, len, q, ds, cur, PieceTd(n, r, amt, ptr));
      ghost var b := Snap();
      HwRun(hw);
      HwThen(a, b, Snap(), e);
      SubEp(b);
      SpreadDrained(b, Snap(), e, r, buf, len, q, ds + [cur]);
    }

    /** The submission loop: a descriptor for every chunk, the controller going on
        with what is queued already. */
    method PushAll(cur0: nat, r: nat, len: nat, buf: int, hw: seq<seq<HwStep>>) returns (cur: nat, ghost ds: seq<nat>)
      requires Valid() && sub.Sub? && sub.r == r && sub.left == len > 0 && buf > 0
      requires L(lists, Tail(sub.e)) == [cur0] && |L(lists, Free)| >= Chunks(len)
      modifies this, td, ep, req
      ensures Valid() && Keeps(old(Snap()), Snap()) && sub == Sub(old(sub).e, r, 0) && L(lists, Tail(sub.e)) == [cur]
      ensures |acct| == |old(acct)| && forall i: nat | i < |acct| :: SameRuns(old(acct)[i], acct[i])
      ensures r < req.Length && req[..] == old(req[..])[r := old(req[r]).(tdcount := old(req[r]).tdcount + Chunks(len))]
      ensures |ds| == Chunks(len) && Spread(Snap(), sub.e, r, buf, len, old(L(lists, Wait(sub.e))), ds)
      ensures Snap() == PushS(old(Snap()), len, buf, hw, 1) && log == old(log) + Queues(r, Chunks(len))
      ensures !old(odd) && AllEven(hw) ==> !odd
    {
      hide Inv, Chunks, Keeps, Spread, Chunked, HwRunS, PieceS, PushS, PieceLen, Queues, Broken;
      ghost var s, e := Snap(), sub.e;
      Lengths(s);
      KeepsRefl(s);
      SpreadNone(s, e, r, buf, len);
      ghost var q := L(lists, Wait(e));
      ds := [];
      var left: nat, ptr, i := len, buf, 1;
      cur := cur0;
      ghost var done := 0;
      while left > 0
        invariant Valid() && Keeps(s, Snap()) && sub == Sub(e, r, left)
        invariant PushS(Snap(), left, ptr, hw, i) == PushS(s, len, buf, hw, 1)
        invariant L(lists, Tail(e)) == [cur] && ptr > 0
        invariant left > 0 ==> |L(lists, Free)| >= Chunks(left)
        invariant done + (if left == 0 then 0 else Chunks(left)) == Chunks(len)
        invariant req[..] == s.req[r := s.req[r].(tdcount := s.req[r].tdcount + done)]
        invariant |acct| == |s.acct| && forall i: nat | i < |acct| :: SameRuns(s.acct[i], acct[i])
        invariant log == s.log + Queues(r, done)
        invariant |ds| == done && Spread(Snap(), e, r, buf, len, q, ds) && (!old(odd) && AllEven(hw) ==> !odd)
        invariant left > 0 ==> left == len - done * PKTLEN && ptr == buf + done * PKTLEN
      {
        ChunksStep(left);
        ChunksPositive(left);
        var amt: nat := if left > PKTLEN then PKTLEN else left;
        ghost var a, d := Snap(), cur;
        PushStep(a, left, ptr, hw, i);
        PieceIs(len, done, left);
        cur := PushPiece(cur, r, amt, ptr, At(hw, i), buf, len, q, ds);
        ds := ds + [d];
        ptr, left := ptr + amt, left - amt;
        KeepsTrans(s, a, Snap());
        QueuesMore(r, done);
        i, done := i + 1, done + 1;
      }
      PushNone(Snap(), ptr, hw, i);
    }

    /** usb_queue_request and ohci_xfer: every byte of the request gets a descriptor. The
        controller goes on before the first chunk, after each, before the halt bit is
        cleared (`last`), and between the load and the store of the head pointer that
        clear it (`mid`). `at` is the state at the load. */
    method Xfer(e: nat, r: nat, len: nat, buf: int, hw: seq<seq<HwStep>>, last: seq<HwStep>, mid: seq<HwStep>)
      returns (fate: Fate, ghost ds: seq<nat>, ghost at: St)
      requires Valid() && CanSubmit(Snap(), e, r) && |L(lists, Free)| >= Chunks(len) && (len > 0 ==> buf > 0)
      modifies this, td, ep, req
      ensures Stored(at, e, mid, fate) && (fate.Lost? ==> Broken(Snap()))
      ensures fate.Fine? ==> Valid() && Keeps(old(Snap()), Snap()) && sub.Idle?
      ensures fate.Fine? ==> req[r].inprogress && req[r].length == len
      ensures fate.Fine? ==> req[r].tdcount == Chunks(len) == if len == 0 then 1 else (len + 8175) / 8176
      ensures fate.Fine? ==> |acct| == |old(acct)| == req.Length && Submitted(old(acct)[r], acct[r])
      ensures fate.Fine? ==>
        forall i: nat | i < req.Length && i != r :: req[i] == old(req[i]) && SameRuns(old(acct)[i], acct[i])
      ensures |ds| == Chunks(len) && (fate.Fine? ==> Spread(Snap(), e, r, buf, len, old(L(lists, Wait(e))), ds))
      ensures |old(acct)| == req.Length && Snap() == XferS(old(Snap()), e, r, len, buf, hw, last, mid)
      ensures log == old(log) + [Began(r, len)] + Queues(r, Chunks(len)) && e < ep.Length && !ep[e].halted
      ensures !old(odd) && AllEven(hw) && Even(last) && Even(mid) && Spares(mid, e) ==> fate.Fine? && !odd
    {
      hide Inv, Chunks, Keeps, Spread, HwKeeps, Stored, Broken, HwRunS, Drained, HwT, RequestS, CommitT;
      ghost var s := Snap();
      ChunksPositive(len);
      ChunksAre(len);
      var cur := BeginXfer(e, r, len, At(hw, 0));
      ghost var h := Snap();
      ghost var q := L(lists, Wait(e));
      cur, ds := PushRequest(cur, r, len, buf, hw);
      ghost var c := Snap();
      SpreadBack(c, e, r, buf, len, q, L(s.lists, Wait(e)), ds);
      KeepsTrans(s, h, c);
      fate, at := Commit(e, r, cur, last, mid, s);
      if fate.Fine? {
        SpreadDrained(c, Snap(), e, r, buf, len, L(s.lists, Wait(e)), ds);
      }
    }

    /** The request is marked as in progress and the tail pointer loaded. */
    method BeginXfer(e: nat, r: nat, len: nat, hw: seq<HwStep>) returns (cur: nat)
      requires Valid() && CanSubmit(Snap(), e, r)
      modifies this, td, ep, req
      ensures Valid() && Keeps(old(Snap()), Snap()) && sub == Sub(e, r, len) && L(lists, Tail(e)) == [cur]
      ensures L(lists, Free) == old(L(lists, Free)) && Suffix(L(lists, Wait(e)), old(L(lists, Wait(e))))
      ensures Begun(old(Snap()), Snap(), r, len)
      ensures r < req.Length == |old(acct)| && Snap() == HwT(BeginS(old(Snap()), e, r, len), hw)
      ensures log == old(log) + [Began(r, len)]
      ensures !old(odd) && Even(hw) ==> !odd
    {
      hide Inv, Keeps, HwKeeps, HwRunS, Begun, Suffix;
      ghost var s := Snap();
      cur := Mark(e, r, len);
      ghost var b := Snap();
      BeginKeeps(s, e, r, len);
      HwRun(hw);
      HwBegun(s, b, Snap(), e);
      IsBegun(s, Snap(), e, r, len);
    }

    method Mark(e: nat, r: nat, len: nat) returns (cur: nat)
      requires Valid() && CanSubmit(Snap(), e, r)
      modifies this, req
      ensures Valid() && r < req.Length == |old(acct)| && Snap() == BeginS(old(Snap()), e, r, len) && odd == old(odd)
      ensures L(lists, Tail(e)) == [cur]
    {
      hide Inv;
      ghost var s := Snap();
      Lengths(s);
      BeginInv(s, e, r, len);
      DummyAt(s, e);
      req[r] := req[r].(length := len, tdcount := 0, xferred := 0, inprogress := true);
      acct := acct[r := Acct(acct[r].submitted + 1, acct[r].completed, 0, 0)];
      sub, log := Sub(e, r, len), log + [Began(r, len)];
      assert Snap() == BeginS(s, e, r, len);
      cur := ep[e].tailp;
    }

    /** The new tail pointer, and the end of a halt: the head pointer is loaded and
        stored with its halt bit cleared. */
    method Commit(e: nat, r: nat, tail: nat, last: seq<HwStep>, mid: seq<HwStep>, ghost s: St)
      returns (fate: Fate, ghost at: St)
      requires Valid() && sub == Sub(e, r, 0) && L(lists, Tail(e)) == [tail] && r < req.Length && req[r].tdcount > 0
      requires Keeps(s, Snap()) && e < |s.ep| && !(s.ep[e].open && s.ep[e].skip)
      modifies this, td, ep
      ensures Stored(at, e, mid, fate) && (fate.Lost? ==> Broken(Snap()))
      ensures fate.Fine? ==> Valid() && Keeps(s, Snap()) && sub.Idle? && |acct| == |old(acct)|
      ensures fate.Fine? ==> forall i: nat | i < |acct| :: SameRuns(old(acct)[i], acct[i])
      ensures req[..] == old(req[..]) && Drained(old(Snap()), Snap())
      ensures Snap() == CommitT(old(Snap()), e, last, mid) && log == old(log) && e < ep.Length && !ep[e].halted
      ensures !old(odd) && Even(last) && Even(mid) && Spares(mid, e) ==> fate.Fine? && !odd
    {
      hide Inv, Keeps, HwKeeps, HwRunS, Drained, Broken, Stored, CommitT, StoreHead;
      ghost var c := Snap();
      SubEp(c);
      CommitInv(c, tail);
      CommitKeeps(s, c, tail);
      ep[e] := ep[e].(tailp := tail);
      sub := Idle;
      ghost var m := Snap();
      assert m == CommitS(c, tail);
      HwRun(last);
      at := Snap();
      HwSub(m, at);
      var h := ep[e].headp;
      HwRun(mid);
      ghost var x := Snap();
      HwSub(at, x);
      fate := if ep[e].headp == h then Fine else Lost;
      ep[e] := ep[e].(headp := h, halted := false);
      IsStored(x, e, h, Snap());
      Committed(s, c, m, at, x, e, tail, last, mid, fate);
    }

    /** The descriptors of a request, one if it is empty. */
    method PushRequest(cur0: nat, r: nat, len: nat, buf: int, hw: seq<seq<HwStep>>)
      returns (cur: nat, ghost ds: seq<nat>)
      requires Valid() && sub.Sub? && sub.r == r && sub.left == len && (len > 0 ==> buf > 0)
      requires L(lists, Tail(sub.e)) == [cur0] && |L(lists, Free)| >= Chunks(len)
      modifies this, td, ep, req
      ensures Valid() && Keeps(old(Snap()), Snap()) && sub == Sub(old(sub).e, r, 0) && L(lists, Tail(sub.e)) == [cur]
      ensures |acct| == |old(acct)| && forall i: nat | i < |acct| :: SameRuns(old(acct)[i], acct[i])
      ensures r < req.Length && req[..] == old(req[..])[r := old(req[r]).(tdcount := old(req[r]).tdcount + Chunks(len))]
      ensures |ds| == Chunks(len) && Spread(Snap(), sub.e, r, buf, len, old(L(lists, Wait(sub.e))), ds)
      ensures Snap() == RequestS(old(Snap()), len, buf, hw) && log == old(log) + Queues(r, Chunks(len))
      ensures !old(odd) && AllEven(hw) ==> !odd
    {
      hide Inv, Chunks, Keeps, Spread, Chunked, HwRunS, PieceS;
      if len == 0 {
        ghost var s, e := Snap(), sub.e;
        Lengths(s);
        ChunksZero();
        SpreadNone(s, e, r, buf, len);
        cur := PushPiece(cur0, r, 0, 0, At(hw, 1), buf, len, L(s.lists, Wait(e)), []);
        ds := [] + [cur0];
      } else {
        cur, ds := PushAll(cur0, r, len, buf, hw);
      }
    }

    // ----- ohci_intr_procdoneq

    /** Accounts one descriptor to its request, and says whether that completed it. */
    method Account(d: nat, got: int, cc: int, final: int, ghost p: Place) returns (completed: bool)
      requires Valid() && sub.Idle? && Out(p) && L(lists, p) != [] && L(lists, p)[0] == d
      requires d < td.Length && 0 <= td[d].ref < req.Length == |acct| && |own| == td.Length
      modifies this, req
      ensures Snap() == SettleS(old(Snap()), p, got, cc, final) && odd == old(odd)
      ensures completed <==> req[td[d].ref].tdcount == 0
    {
      hide Inv;
      ghost var s := Snap();
      Lengths(s);
      var r := td[d].ref;
      var q := req[r].(status := cc, tdcount := req[r].tdcount - 1);
      q := q.(xferred := q.xferred + got);
      completed := q.tdcount == 0;
      acct := acct[r := SettleAcct(req[r], acct[r], td[d].length - got)];
      log := log + [Settled(d, p, r, got, cc)];
      if completed {
        q := q.(status := final, inprogress := false);
      }
      req[r] := q;
      lists, own := MoveFront(lists, p, Held), own[d := Held];
      assert Snap() == SettleS(s, p, got, cc, final);
    }

    /** One round of the done-queue loop, with what the callback goes on to do. */
    method DoneRound(d: nat, calls: Calls, ghost depth: nat) returns (next: int, fate: Fate)
      requires Valid() && sub.Idle? && L(lists, Hand(depth)) != [] && L(lists, Hand(depth))[0] == d
      requires Clear(lists, depth + 1)
      modifies this, td, ep, req
      ensures Ended(fate)
      ensures fate.Fine? ==> sub.Idle? && next == First(L(lists, Hand(depth)), NIL)
      ensures fate.Fine? ==>
        KeepsBut(old(Snap()), Snap(), Hand(depth)) && L(lists, Hand(depth)) == old(L(lists, Hand(depth)))[1..]
      ensures fate.Fine? ==> Snap() == RoundS(old(Snap()), Hand(depth), calls, depth + 1)
      ensures fate.Fine? ==> Round(old(Snap()), Snap(), Hand(depth), depth + 1)
      ensures !old(odd) && TameCalls(calls) ==> fate.Fine? && !odd
      decreases calls, 1
    {
      hide Inv, Clear, Keeps, KeepsBut, HwKeeps, HwRunS, Broken, Completes, RoundS, Round, BetweenS, SettleT, Deep;
      hide Taken;
      ghost var p := Hand(depth);
      ghost var s0 := Snap();
      Before(calls, p, depth + 1);
      ghost var s := Snap();
      DoneInv(s, depth);
      Lengths(s);
      next := td[d].next;
      var t := td[d];
      var completed := Account(d, Got(t), t.cc, if req[t.ref].removing then CC_CANCELLED else t.cc, p);
      ghost var a := Snap();
      assert a == DoneS(s, depth);
      SettleKeeps(s, p, Got(t), t.cc);
      SettleIs(s, p, a);
      ClearMoved(s, p, a, depth + 1);
      fate := Between(completed, calls, depth + 1);
      if !fate.Fine? {
        return;
      }
      ghost var b := Snap();
      CallbackKeeps(s, a, b, p);
      InHand(s, b, p);
      FreeXfer(d);
      RoundEnd(s0, s, a, b, Snap(), p, calls, depth + 1);
    }

    /** Controller steps before a descriptor of `p` is looked at. */
    method Before(calls: Calls, ghost p: Place, ghost depth: nat)
      requires Valid() && Clear(lists, depth) && Busy(Snap(), p)
      modifies this, td, ep
      ensures Valid() && Keeps(old(Snap()), Snap()) && sub == old(sub)
      ensures KeepsBut(old(Snap()), Snap(), p) && L(lists, p) == old(L(lists, p)) && Clear(lists, depth)
      ensures Snap() == (if calls.Calls? then HwRunS(old(Snap()), calls.before) else old(Snap())) && log == old(log)
      ensures !old(odd) && TameCalls(calls) ==> !odd
    {
      hide Inv, Clear, Keeps, KeepsBut, HwKeeps, HwRunS;
      ghost var s0 := Snap();
      if calls.Calls? {
        HwRun(calls.before);
        HwSub(s0, Snap());
        HwOnly(s0, Snap());
      } else {
        KeepsRefl(s0);
      }
      BeforeRound(s0, Snap(), p, depth);
    }

    /** From the accounting of a descriptor to its return: the callback, if the request
        is complete, and controller steps in any case. */
    method Between(completed: bool, calls: Calls, ghost depth: nat) returns (fate: Fate)
      requires Valid() && sub.Idle? && Clear(lists, depth) && (completed <==> Completes(Snap()))
      modifies this, td, ep, req
      ensures Ended(fate) && (fate.Fine? ==> sub.Idle? && Keeps(old(Snap()), Snap()))
      ensures fate.Fine? ==> Snap() == BetweenS(old(Snap()), calls, depth) && Deep(old(Snap()), Snap(), depth, Held)
      ensures !old(odd) && TameCalls(calls) ==> fate.Fine? && !odd
      decreases calls, 0
    {
      hide Inv, Clear, Keeps, HwKeeps, HwRunS, Broken, Completes, RunS, Deep;
      ghost var a := Snap();
      KeepsRefl(a);
      DeepSame(a, a, depth, Held);
      fate := Fine;
      if calls.Calls? {
        if completed {
          fate := Run(calls.first, depth);
          if !fate.Fine? {
            return;
          }
        }
        ghost var b := Snap();
        HwRun(calls.after);
        HwSub(b, Snap());
        HwOnly(b, Snap());
        KeepsTrans(a, b, Snap());
        DeepOf(a, b, Snap(), depth, Held);
      }
    }

    method ProcDoneQ(donehead: int, calls: Calls, ghost depth: nat) returns (fate: Fate)
      requires Valid() && sub.Idle? && donehead == First(L(lists, Hand(depth)), NIL) && Clear(lists, depth + 1)
      modifies this, td, ep, req
      ensures Ended(fate)
      ensures fate.Fine? ==> sub.Idle? && KeepsBut(old(Snap()), Snap(), Hand(depth)) && L(lists, Hand(depth)) == []
      ensures fate.Fine? ==>
        Snap() == LoopS(old(Snap()), Hand(depth), |old(L(lists, Hand(depth)))|, calls, depth + 1)
      ensures fate.Fine? ==>
        Rounds(old(Snap()), Snap(), Hand(depth), |old(L(lists, Hand(depth)))|, depth + 1)
      ensures !old(odd) && TameCalls(calls) ==> fate.Fine? && !odd
      decreases calls, 2
    {
      hide Inv, Clear, KeepsBut, Broken, Round, Rounds, RoundS;
      ghost var s, p := Snap(), Hand(depth);
      ghost var l, n := L(lists, p), 0;
      var doneq, c := donehead, calls;
      KeepsButRefl(s, p);
      RoundsNone(s, p, depth + 1);
      fate := Fine;
      while doneq != NIL
        invariant Valid() && sub.Idle? && KeepsBut(s, Snap(), p) && Clear(lists, depth + 1)
        invariant doneq == First(L(lists, p), NIL) && (c == calls || c < calls) && fate.Fine?
        invariant n + |L(lists, p)| == |l| && Rounds(s, Snap(), p, n, depth + 1)
        invariant LoopS(Snap(), p, |L(lists, p)|, c, depth + 1) == LoopS(s, p, |l|, calls, depth + 1)
        invariant !old(odd) && TameCalls(calls) ==> !odd && TameCalls(c)
        decreases |L(lists, p)|
      {
        ghost var a := Snap();
        doneq, fate := DoneRound(doneq, c, depth);
        if !fate.Fine? {
          return;
        }
        ButBusy(s, a, p);
        RoundsMore(s, a, Snap(), p, n, depth + 1);
        KeepsButTrans(s, a, Snap(), p);
        ClearKept(a, Snap(), depth);
        c, n := if c.Calls? then c.more else c, n + 1;
      }
    }

    /** ohci_intr: take the done list, acknowledge, process. The source does not mask bit
        0 of the done head: set, it makes the first address that of no descriptor. */
    method Intr(hw: seq<HwStep>, calls: Calls, ghost depth: nat) returns (fate: Fate)
      requires Valid() && sub.Idle? && Clear(lists, depth)
      modifies this, td, ep, req
      ensures Ended(fate) && (old(wdh && odd) ==> fate.Wild?)
      ensures fate.Fine? ==> sub.Idle? && Keeps(old(Snap()), Snap())
      ensures fate.Fine? ==> Snap() == IntrS(old(Snap()), hw, calls, depth) && Deep(old(Snap()), Snap(), depth, Held)
      ensures fate.Fine? && old(wdh) ==> Emptied(old(Snap()), Snap(), depth)
      ensures !old(odd) && Even(hw) && TameCalls(calls) ==> fate.Fine? && !odd
      decreases calls, 3
    {
      hide Inv, KeepsBut, HwKeeps, HwRunS, Broken, Keeps, LoopS, Rounds, Deep, Emptied;
      fate := Fine;
      ghost var s := Snap();
      if !wdh {
        KeepsRefl(s);
        DeepSame(s, s, depth, Held);
        return;
      }
      if odd {
        return Wild;
      }
      var donehead := TakeDone(hw, depth);
      ghost var a := Snap();
      fate := ProcDoneQ(donehead, calls, depth);
      if fate.Fine? {
        HandBack(s, a, Snap(), depth);
        AllTaken(s, a, Snap(), hw, depth);
      }
    }

    /** The done head is read and acknowledged. */
    method TakeDone(hw: seq<HwStep>, ghost depth: nat) returns (donehead: int)
      requires Valid() && sub.Idle? && Clear(lists, depth) && wdh
      modifies this, td, ep
      ensures Valid() && sub.Idle? && donehead == First(L(lists, Hand(depth)), NIL) && Clear(lists, depth + 1)
      ensures Snap() == TakeS(HwRunS(old(Snap()), hw), depth) && KeepsBut(old(Snap()), Snap(), Hand(depth))
      ensures !old(odd) && Even(hw) ==> !odd
    {
      hide Inv, KeepsBut, HwKeeps, HwRunS, Keeps;
      ghost var s0 := Snap();
      donehead := hcca;
      HwRun(hw);
      ghost var s := Snap();
      HwPending(s0, s);
      HwSub(s0, s);
      HwOnly(s0, s);
      ClearKeeps(s0, s, depth);
      TakeInv(s, depth);
      wdh := false;
      lists, own := Renamed(lists, DoneHcca, Hand(depth)), RenamedOwn(own, DoneHcca, Hand(depth));
      assert Snap() == TakeS(s, depth);
      TakeKeeps(s, depth);
      BeforeRound(s0, s, Hand(depth), depth);
      KeepsButTrans(s0, s, Snap(), Hand(depth));
    }

    // ----- Endpoints

    method EptCreate(e: nat, hw: seq<HwStep>)
      requires Valid() && sub.Idle? && e < ep.Length && !ep[e].open && L(lists, Free) != []
      modifies this, td, ep
      ensures Valid() && sub.Idle? && Keeps(old(Snap()), Snap())
      ensures ep[e].open && L(lists, Wait(e)) == [] && L(lists, Tail(e)) == [ep[e].tailp] && ep[e].headp == ep[e].tailp
      ensures !ep[e].skip && !ep[e].halted && Snap() == CreateS(old(Snap()), e, hw) && log == old(log)
      ensures !old(odd) && Even(hw) ==> !odd
    {
      hide Inv, Keeps, HwKeeps, HwRunS;
      ghost var s := Snap();
      ClosedLists(s, e);
      var d := AllocXfer();
      ghost var a0 := Snap();
      HwRun(hw);
      ghost var a := Snap();
      HwOnly(a0, a);
      HwSub(a0, a);
      HwOpen(a0, a, e);
      ClosedLists(a, e);
      HeldKept(a0, a);
      OpenInv(a, e);
      ep[e] := Ep(true, false, false, d, d);
      lists, own := MoveFront(lists, Held, Tail(e)), own[d := Tail(e)];
      assert Snap() == OpenS(a, e);
      CreateKeeps(s, a0, a, Snap(), e);
    }

    /** One queued descriptor of the endpoint being deleted. */
    method CancelRound(e: nat, d: nat, calls: Calls, ghost depth: nat) returns (next: int, fate: Fate)
      requires Valid() && sub.Idle? && e < ep.Length && ep[e].open && ep[e].skip
      requires L(lists, Wait(e)) != [] && L(lists, Wait(e))[0] == d && Clear(lists, depth)
      modifies this, td, ep, req
      ensures Ended(fate)
      ensures fate.Fine? ==> sub.Idle? && e < ep.Length && ep[e] == old(ep[e]) && |L(lists, Tail(e))| == 1
      ensures fate.Fine? ==>
        L(lists, Tail(e)) == old(L(lists, Tail(e))) && next == First(L(lists, Wait(e)), L(lists, Tail(e))[0])
      ensures fate.Fine? ==> KeepsBut(old(Snap()), Snap(), Wait(e)) && L(lists, Wait(e)) == old(L(lists, Wait(e)))[1..]
      ensures fate.Fine? ==> Snap() == RoundS(old(Snap()), Wait(e), calls, depth)
      ensures fate.Fine? ==> Round(old(Snap()), Snap(), Wait(e), depth)
      ensures !old(odd) && TameCalls(calls) ==> fate.Fine? && !odd
      decreases calls, 1
    {
      hide Inv, Clear, Keeps, KeepsBut, HwKeeps, HwRunS, Broken, Completes, RoundS, Round, BetweenS, SettleT, Deep;
      ghost var p := Wait(e);
      ghost var s0 := Snap();
      Before(calls, p, depth);
      ghost var s := Snap();
      FrozenAt(s0, s, e);
      CancelInv(s, e);
      Lengths(s);
      next := td[d].next;
      var completed := Account(d, 0, CC_CANCELLED, CC_CANCELLED, p);
      ghost var a := Snap();
      assert a == CancelS(s, e);
      SettleKeeps(s, p, 0, CC_CANCELLED);
      SettleIs(s, p, a);
      ClearMoved(s, p, a, depth);
      fate := Between(completed, calls, depth);
      if !fate.Fine? {
        return;
      }
      ghost var b := Snap();
      FrozenAt(a, b, e);
      CallbackKeeps(s, a, b, p);
      InHand(s, b, p);
      FreeXfer(d);
      RoundEnd(s0, s, a, b, Snap(), p, calls, depth);
    }

    /** ohci_ept_delete: whatever is still queued is cancelled and freed. The skip flag
        counts as set once the source has waited for the controller to notice it. */
    method EptDelete(e: nat, hw: seq<HwStep>, calls: Calls, last: seq<HwStep>, ghost depth: nat) returns (fate: Fate)
      requires Valid() && sub.Idle? && e < ep.Length && ep[e].open && !ep[e].skip && Clear(lists, depth)
      modifies this, td, ep, req
      ensures Ended(fate) && (fate.Fine? ==> sub.Idle? && Keeps(old(Snap()), Snap()))
      ensures fate.Fine? ==> !ep[e].open && L(lists, Wait(e)) == [] && L(lists, Tail(e)) == []
      ensures fate.Fine? ==> Snap() == DeleteS(old(Snap()), e, hw, calls, last, depth)
      ensures fate.Fine? ==> Deep(old(Snap()), Snap(), depth, Held) && Cancelled(old(Snap()), Snap(), e)
      ensures !old(odd) && Even(hw) && TameCalls(calls) && Even(last) ==> fate.Fine? && !odd
      decreases calls, 3
    {
      hide Inv, Clear, KeepsBut, HwKeeps, HwRunS, Broken, Keeps, LoopS, CloseT, Deep, Cancelled, Rounds;
      ghost var s := Snap();
      Skip(e, hw, depth);
      ghost var k := Snap();
      var tdphys;
      tdphys, fate := CancelAll(e, calls, depth);
      if !fate.Fine? {
        return;
      }
      ghost var b := Snap();
      KeepsButTrans(SkipS(s, e), k, b, Wait(e));
      CloseEpt(e, tdphys, last, depth, s);
      AllCancelled(s, k, b, Snap(), e, hw, depth);
    }

    /** The skip flag is set. */
    method Skip(e: nat, hw: seq<HwStep>, ghost depth: nat)
      requires Valid() && sub.Idle? && e < ep.Length && ep[e].open && !ep[e].skip && Clear(lists, depth)
      modifies this, td, ep
      ensures Valid() && sub.Idle? && ep[e].open && ep[e].skip && Clear(lists, depth) && ep[e].tailp >= 0
      ensures L(lists, Tail(e)) == [ep[e].tailp] && ep[e].headp == First(L(lists, Wait(e)), ep[e].tailp)
      ensures Snap() == HwT(SkipS(old(Snap()), e), hw) && KeepsBut(SkipS(old(Snap()), e), Snap(), Wait(e))
      ensures !old(odd) && Even(hw) ==> !odd
    {
      hide Inv, Clear, KeepsBut, HwKeeps, HwRunS, Keeps;
      ghost var s := Snap();
      SkipInv(s, e);
      HeadAt(s, e);
      ep[e] := ep[e].(skip := true);
      ghost var k := Snap();
      assert k == SkipS(s, e);
      HwRun(hw);
      HwSub(k, Snap());
      HwOnly(k, Snap());
      FrozenAt(k, Snap(), e);
      BeforeRound(k, Snap(), Wait(e), depth);
    }

    /** Every queued descriptor is cancelled, up to the dummy. */
    method CancelAll(e: nat, calls: Calls, ghost depth: nat) returns (tdphys: int, fate: Fate)
      requires Valid() && sub.Idle? && e < ep.Length && ep[e].open && ep[e].skip && Clear(lists, depth)
      requires L(lists, Tail(e)) == [ep[e].tailp] && ep[e].headp == First(L(lists, Wait(e)), ep[e].tailp)
      requires ep[e].tailp >= 0
      modifies this, td, ep, req
      ensures Ended(fate)
      ensures fate.Fine? ==> sub.Idle? && ep[e] == old(ep[e]) && Clear(lists, depth)
      ensures fate.Fine? ==> tdphys >= 0 && L(lists, Wait(e)) == [] && L(lists, Tail(e)) == [tdphys]
      ensures fate.Fine? ==> KeepsBut(old(Snap()), Snap(), Wait(e))
      ensures fate.Fine? ==> Snap() == LoopS(old(Snap()), Wait(e), |old(L(lists, Wait(e)))|, calls, depth)
      ensures fate.Fine? ==> Rounds(old(Snap()), Snap(), Wait(e), |old(L(lists, Wait(e)))|, depth)
      ensures !old(odd) && TameCalls(calls) ==> fate.Fine? && !odd
      decreases calls, 2
    {
      hide Inv, Clear, KeepsBut, Broken, Round, Rounds, RoundS;
      ghost var k, p := Snap(), Wait(e);
      ghost var l, n := L(lists, p), 0;
      var c := calls;
      tdphys := ep[e].headp;
      KeepsButRefl(k, p);
      RoundsNone(k, p, depth);
      fate := Fine;
      while tdphys != ep[e].tailp
        invariant Valid() && sub.Idle? && KeepsBut(k, Snap(), p) && Clear(lists, depth) && fate.Fine?
        invariant ep[e] == k.ep[e] && L(lists, Tail(e)) == [ep[e].tailp]
        invariant tdphys == First(L(lists, p), ep[e].tailp) && (c == calls || c < calls)
        invariant n + |L(lists, p)| == |l| && Rounds(k, Snap(), p, n, depth)
        invariant LoopS(Snap(), p, |L(lists, p)|, c, depth) == LoopS(k, p, |l|, calls, depth)
        invariant !old(odd) && TameCalls(calls) ==> !odd && TameCalls(c)
        decreases |L(lists, p)|
      {
        ghost var a := Snap();
        tdphys, fate := CancelRound(e, tdphys, c, depth);
        if !fate.Fine? {
          return;
        }
        ButBusy(k, a, p);
        RoundsMore(k, a, Snap(), p, n, depth);
        KeepsButTrans(k, a, Snap(), p);
        ClearKeptBut(a, Snap(), depth, e);
        c, n := if c.Calls? then c.more else c, n + 1;
      }
      QueueDone(Snap(), e);
    }

    /** The dummy is given up and the endpoint closed. */
    method CloseEpt(e: nat, dummy: nat, last: seq<HwStep>, ghost depth: nat, ghost s: St)
      requires Valid() && sub.Idle? && e < ep.Length && ep[e].open && ep[e].skip && Clear(lists, depth)
      requires L(lists, Wait(e)) == [] && L(lists, Tail(e)) == [dummy]
      requires e < |s.ep| && !s.ep[e].skip && KeepsBut(SkipS(s, e), Snap(), Wait(e))
      modifies this, td, ep
      ensures Valid() && sub.Idle? && Keeps(s, Snap())
      ensures !ep[e].open && L(lists, Wait(e)) == [] && L(lists, Tail(e)) == []
      ensures Snap() == CloseT(old(Snap()), e, last) && log == old(log)
      ensures !old(odd) && Even(last) ==> !odd
    {
      hide Inv, Clear, KeepsBut, Keeps, HwKeeps, HwRunS;
      ghost var b0 := Snap();
      HwRun(last);
      ghost var b := Snap();
      HwSub(b0, b);
      HwOnly(b0, b);
      FrozenAt(b0, b, e);
      BeforeRound(b0, b, Wait(e), depth);
      KeepsButTrans(SkipS(s, e), b0, b, Wait(e));
      CloseInv(b, e);
      OnThatList(b, Tail(e), dummy);
      ep[e] := ep[e].(open := false);
      lists, own := MoveFront(lists, Tail(e), Held), own[dummy := Held];
      ghost var x := Snap();
      assert x == CloseS(b, e);
      FreeXfer(dummy);
      DeleteKeeps(s, SkipS(s, e), b, x, Snap(), e);
    }

    // ----- Any run

    /** Number of free descriptors. */
    method FreeCount() returns (n: nat)
      requires Valid()
      ensures n == |L(lists, Free)|
    {
      hide Inv;
      ghost var s, f := Snap(), L(lists, Free);
      FreeHead(s);
      var t := freelist;
      n := 0;
      while t != NIL
        invariant n <= |f| && t == First(f[n..], NIL)
        decreases |f| - n
      {
        FreeLink(s, n);
        t, n := td[t].tnext, n + 1;
      }
    }

    /** One driver call or controller step, if it is possible now. */
    method Do(act: Act, ghost depth: nat) returns (fate: Fate)
      requires Valid() && sub.Idle? && Clear(lists, depth)
      modifies this, td, ep, req
      ensures Ended(fate) && (fate.Fine? ==> sub.Idle? && Keeps(old(Snap()), Snap()))
      ensures fate.Fine? ==> Snap() == ActS(old(Snap()), act, depth) && Deep(old(Snap()), Snap(), depth, Held)
      ensures !old(odd) && Tame(act) ==> fate.Fine? && !odd
      decreases act
    {
      hide Inv, Clear, Keeps, HwKeeps, HwS, Broken, Stored, CreateS, XferS, IntrS, DeleteS, Deep, Emptied, Cancelled;
      hide Spread;
      ghost var s := Snap();
      KeepsRefl(s);
      Lengths(s);
      DeepSame(s, s, depth, Held);
      fate := Fine;
      match act
      case Create(e, hw) =>
        var n := FreeCount();
        if e < ep.Length && !ep[e].open && n > 0 {
          EptCreate(e, hw);
          DeepSame(s, Snap(), depth, Held);
        }
      case Submit(e, r, len, buf, rounds, last, mid) =>
        var n := FreeCount();
        if e < ep.Length && ep[e].open && !ep[e].skip && r < req.Length && !req[r].inprogress {
          if n >= Chunks(len) && (len > 0 ==> buf > 0) {
            ghost var ds, at;
            fate, ds, at := Xfer(e, r, len, buf, rounds, last, mid);
            StoredFate(at, e, mid, fate);
            if fate.Fine? {
              SentDeep(s, Snap(), r, len, depth);
            }
          }
        }
      case Hardware(h) =>
        HwAct(h);
        HwSub(s, Snap());
        HwOnly(s, Snap());
        DeepSame(s, Snap(), depth, Held);
      case Interrupt(hw, calls) =>
        fate := Intr(hw, calls, depth);
      case Delete(e, hw, calls, last) =>
        if e < ep.Length && ep[e].open && !ep[e].skip {
          fate := EptDelete(e, hw, calls, last, depth);
        }
    }

    /** Every interleaving keeps the invariant, up to the first outdated head pointer
        stored or odd done head read; tame runs meet neither. */
    method Run(acts: Acts, ghost depth: nat) returns (fate: Fate)
      requires Valid() && sub.Idle? && Clear(lists, depth)
      modifies this, td, ep, req
      ensures Ended(fate) && (fate.Fine? ==> sub.Idle? && Keeps(old(Snap()), Snap()))
      ensures fate.Fine? ==> Snap() == RunS(old(Snap()), acts, depth) && Deep(old(Snap()), Snap(), depth, Held)
      ensures !old(odd) && TameActs(acts) ==> fate.Fine? && !odd
      decreases acts
    {
      hide Inv, Clear, Keeps, Broken, ActS, Deep;
      ghost var s := Snap();
      KeepsRefl(s);
      DeepSame(s, s, depth, Held);
      fate := Fine;
      if acts.Then? {
        fate := Do(acts.act, depth);
        if !fate.Fine? {
          return;
        }
        ghost var a := Snap();
        ClearKeeps(s, a, depth);
        fate := Run(acts.rest, depth);
        if fate.Fine? {
          KeepsTrans(s, a, Snap());
          KeepsBusy(s, a);
          DeepTrans(s, a, Snap(), depth, Held);
        }
      }
    }

    /** A call that ends well keeps the invariant; one with an outdated head pointer stored
        leaves memory in which it holds under no bookkeeping; one at a wild address came
        from an odd done head. */
    ghost predicate Ended(fate: Fate)
      reads this, td, ep, req
    {
      match fate
      case Fine => Valid()
      case Lost => Broken(Snap())
      case Wild => Valid() && wdh && odd
    }
  }

  function Queues(r: int, n: nat): (evs: seq<Event>)
    ensures |evs| == n && forall i | 0 <= i < n :: evs[i] == Queued(r)
  {
    seq(n, _ => Queued(r))
  }

  lemma QueuesMore(r: int, n: nat)
    ensures Queues(r, n + 1) == Queues(r, n) + [Queued(r)]
  {
  }

  lemma SentDeep(a: St, b: St, r: int, len: nat, depth: nat)
    requires b.log == a.log + [Began(r, len)] + Queues(r, Chunks(len))
    ensures Deep(a, b, depth, Held)
  {
    hide Chunks;
  }

  lemma StoredFate(at: St, e: nat, mid: seq<HwStep>, fate: Fate)
    requires Stored(at, e, mid, fate)
    ensures !fate.Wild?
  {
  }

  /** Request `r` is new in progress; the others are as they were. */
  ghost predicate Begun(a: St, b: St, r: nat, len: nat) {
    && |a.acct| == |b.acct| == |b.req| == |a.req| && r < |a.req| && Submitted(a.acct[r], b.acct[r])
    && (forall i: nat | i < |a.req| && i != r :: b.req[i] == a.req[i] && SameRuns(a.acct[i], b.acct[i]))
    && b.req[r] == a.req[r].(length := len, tdcount := 0, xferred := 0, inprogress := true)
  }

  lemma IsBegun(s: St, c: St, e: nat, r: nat, len: nat)
    requires r < |s.req| == |s.acct|
    requires var b := BeginS(s, e, r, len);
      c.req == b.req && |c.acct| == |b.acct| && forall i: nat | i < |c.acct| :: SameRuns(b.acct[i], c.acct[i])
    ensures Begun(s, c, r, len)
  {
    var b := BeginS(s, e, r, len);
    assert SameRuns(b.acct[r], c.acct[r]);
    forall i: nat | i < |s.req| && i != r
      ensures c.req[i] == s.req[i] && SameRuns(s.acct[i], c.acct[i])
    {
      assert SameRuns(b.acct[i], c.acct[i]);
    }
  }

  lemma HwSub(a: St, b: St)
    requires HwKeeps(a, b)
    ensures b.sub == a.sub && |b.ep| == |a.ep| && b.log == a.log
  {
  }

  lemma HwPending(a: St, b: St)
    requires HwKeeps(a, b) && a.wdh
    ensures b.wdh && b.hcca == a.hcca
  {
  }

  lemma HwOpen(a: St, b: St, e: nat)
    requires HwKeeps(a, b) && e < |a.ep|
    ensures |b.ep| == |a.ep| && b.ep[e].open == a.ep[e].open
  {
  }

  lemma HeldKept(a: St, b: St)
    requires Keeps(a, b)
    ensures L(b.lists, Held) == L(a.lists, Held)
  {
  }

  ghost predicate Initial(s: St) {
    && |s.td| == |s.own| && |s.req| == |s.acct| && s.sub.Idle? && !s.wdh && s.freelist == s.doneReg == NIL
    && s.lists == map[Held := Range(0, |s.td|)] && (forall d | 0 <= d < |s.td| :: s.own[d] == Held)
    && (forall e | 0 <= e < |s.ep| :: !s.ep[e].open)
    && (forall r | 0 <= r < |s.req| ::
      s.req[r].tdcount == 0 && !s.req[r].inprogress && s.acct[r] == Acct(0, 0, s.req[r].xferred, 0))
  }

  lemma InitInv(s: St)
    requires Initial(s)
    ensures Inv(s)
  {
    InitPart(s);
    InitReqs(s);
    hide Part, ReqsOk, Range;
    assert forall p: Place | p != Held :: L(s.lists, p) == [];
  }

  lemma InitPart(s: St)
    requires Initial(s)
    ensures Part(s.lists, s.own)
  {
    hide Range;
    assert L(s.lists, Held) == Range(0, |s.td|);
    forall d: nat | d < |s.own|
      ensures d in L(s.lists, s.own[d])
    {
      assert L(s.lists, Held)[d] == d;
    }
  }

  lemma InitReqs(s: St)
    requires Initial(s)
    ensures ReqsOk(s.td, s.own, s.req, s.acct, s.sub)
  {
    forall r: nat | r < |s.req|
      ensures ReqOk(s.td, s.own, s.req[r], s.acct[r], s.sub, r)
    {
      SumZero(Weights(s.td, s.own, r, Count));
      SumZero(Weights(s.td, s.own, r, Len));
      SumZero(Weights(s.td, s.own, r, Bytes));
    }
  }

  // ----- What the invariant says

  /** Each descriptor is in exactly one list. */
  lemma ExactlyOne(s: St, d: nat, p: Place)
    requires Inv(s) && d < |s.td|
    ensures d in L(s.lists, p) <==> p == s.own[d]
  {
    if d in L(s.lists, p) {
      var i :| 0 <= i < |L(s.lists, p)| && L(s.lists, p)[i] == d;
      PartAt(s.lists, s.own, p, i);
    }
  }

  /** The descriptors of request `r` among the first `n` that are still out. */
  ghost function Outstanding(s: St, r: nat, n: nat): set<nat>
    requires n <= |s.td| == |s.own|
  {
    set d: nat | d < n && OutFor(s, r, d)
  }

  ghost predicate OutFor(s: St, r: nat, d: nat)
    requires d < |s.td| == |s.own|
  {
    Out(s.own[d]) && s.td[d].ref == r
  }

  lemma OutstandingStep(s: St, r: nat, n: nat)
    requires 0 < n <= |s.td| == |s.own|
    ensures |Outstanding(s, r, n)| == |Outstanding(s, r, n - 1)| + if OutFor(s, r, n - 1) then 1 else 0
  {
    hide OutFor;
    var a, b := Outstanding(s, r, n - 1), Outstanding(s, r, n);
    if OutFor(s, r, n - 1) {
      assert b == a + {n - 1};
    } else {
      assert b == a;
    }
  }

  lemma {:induction false} CountPrefix(s: St, r: nat, n: nat)
    requires n <= |s.td| == |s.own|
    ensures Sum(Weights(s.td, s.own, r, Count)[..n]) == |Outstanding(s, r, n)|
  {
    var w := Weights(s.td, s.own, r, Count);
    if n == 0 {
      assert Outstanding(s, r, 0) == {};
    } else {
      CountPrefix(s, r, n - 1);
      assert w[..n][..n - 1] == w[..n - 1];
      OutstandingStep(s, r, n);
    }
  }

  /** ur_tdcount is the number of descriptors the request still has out. */
  lemma CountExact(s: St, r: nat)
    requires Inv(s) && r < |s.req|
    ensures s.req[r].tdcount == |Outstanding(s, r, |s.td|)|
  {
    assert ReqOk(s.td, s.own, s.req[r], s.acct[r], s.sub, r);
    CountPrefix(s, r, |s.td|);
    assert Weights(s.td, s.own, r, Count)[..|s.td|] == Weights(s.td, s.own, r, Count);
  }

  /** A request at rest has completed as often as it was submitted; the bytes it
      reports are the bytes the controller moved, and all of its length exactly when
      no descriptor fell short. */
  lemma Completed(s: St, r: nat)
    requires Inv(s) && s.sub.Idle? && r < |s.req| && !s.req[r].inprogress && s.acct[r].submitted > 0
    ensures s.acct[r].completed == s.acct[r].submitted
    ensures s.req[r].xferred == s.acct[r].moved == s.req[r].length - s.acct[r].short
  {
    assert ReqOk(s.td, s.own, s.req[r], s.acct[r], s.sub, r);
    NoneOut(s.td, s.own, r);
  }

  /** A request in progress has completed once less than it was submitted. */
  lemma Pending(s: St, r: nat)
    requires Inv(s) && s.sub.Idle? && r < |s.req| && s.req[r].inprogress
    ensures s.acct[r].submitted == s.acct[r].completed + 1 && Outstanding(s, r, |s.td|) != {}
  {
    assert ReqOk(s.td, s.own, s.req[r], s.acct[r], s.sub, r);
    CountExact(s, r);
  }

  /** Taking a descriptor, controller steps, opening the endpoint on it. */
  lemma CreateKeeps(s: St, a0: St, a: St, b: St, e: nat)
    requires Inv(s) && e < |s.ep| == |a.ep| && !s.ep[e].open && Keeps(a0, a) && Inv(a)
    requires L(s.lists, Free) != [] && L(s.lists, Free)[0] < |s.td| == |s.own| && a0 == AllocS(s)
    requires L(a.lists, Held) != [] && L(a.lists, Held)[0] < |a.own| && b == OpenS(a, e)
    requires L(a.lists, Wait(e)) == [] && L(a.lists, Tail(e)) == []
    ensures Keeps(s, b) && L(b.lists, Wait(e)) == [] && L(b.lists, Tail(e)) == [L(a.lists, Held)[0]]
  {
    hide Inv;
    Lengths(s);
    GrewSame(s, a0);
    GrewTrans(s, a0, a);
    SameGrew(s, a, b);
    hide Grew;
    FreeOwned(s);
    OneStable(s, a0, L(s.lists, Free)[0], Held);
    OnThatList(a, Held, L(a.lists, Held)[0]);
    CreateStable(s, a0, a, b, e);
    hide StableBut;
    assert L(b.lists, Held) == L(s.lists, Held);
    assert forall q: Place | q != Held && q != Free && q != Tail(e) :: L(b.lists, q) == L(a.lists, q);
    assert forall q: Place | q != Held && q != Free && q != Tail(e) :: L(a0.lists, q) == L(s.lists, q);
  }

  lemma CreateStable(s: St, a0: St, a: St, b: St, e: nat)
    requires StableBut(s, a0, Held) && StableBut(a0, a, Held) && a0.ep == s.ep && e < |a.ep|
    requires L(a.lists, Held) != [] && L(a.lists, Held)[0] < |a.own| && a.own[L(a.lists, Held)[0]] == Held
    requires b == OpenS(a, e)
    ensures StableBut(s, b, Held)
  {
  }

  lemma PushKeeps(a: St, b: St, c: St, amt: nat, cbp: int)
    requires Inv(a) && a.sub.Sub? && L(a.lists, Free) != [] && L(a.lists, Free)[0] < |a.td| == |a.own| && b == AllocS(a)
    requires Inv(b) && CanChunk(b, amt, cbp) && c == ChunkS(b, amt, cbp)
    ensures Keeps(a, c) && L(c.lists, Free) == L(a.lists, Free)[1..]
  {
    hide Inv, ChunkLists;
    Lengths(a);
    NotSkipped(a);
    ChunkHeads(b);
    ChunkListsAre(b.lists, a.sub.e);
    FreeOwned(a);
    GrewSame(a, b);
    GrewBy(b, c, Queued(b.sub.r));
    GrewTrans(a, b, c);
    hide Grew;
    PushStable(a, b, c, amt, cbp);
    hide StableBut;
  }

  /** All that queueing one more descriptor does. */
  lemma Pushed(a: St, b: St, c: St, cur: nat, n: nat, r: nat, amt: nat, ptr: int)
    requires Inv(a) && a.sub.Sub? && a.sub.r == r
    requires L(a.lists, Free) != [] && L(a.lists, Free)[0] == n < |a.td| == |a.own|
    requires b == AllocS(a) && Inv(b) && CanChunk(b, amt, if amt == 0 then 0 else ptr) && L(b.lists, Held)[0] == n
    requires c == ChunkS(b, amt, if amt == 0 then 0 else ptr) && L(a.lists, Tail(a.sub.e)) == [cur]
    ensures Keeps(a, c) && r < |c.req| == |a.req| && c.req == a.req[r := a.req[r].(tdcount := a.req[r].tdcount + 1)]
    ensures c.sub == Sub(a.sub.e, r, a.sub.left - amt) && c.acct == a.acct && c.ep == a.ep
    ensures L(c.lists, Tail(c.sub.e)) == [n] && L(c.lists, Free) == L(a.lists, Free)[1..]
    ensures Chunked(a, c, c.sub.e, cur, PieceTd(n, r, amt, ptr)) && c == ChunkT(a, amt, if amt == 0 then 0 else ptr)
    ensures c.log == a.log + [Queued(r)]
  {
    hide Inv, Chunked, Keeps, ChunkLists;
    ChunkHeads(b);
    ChunkListsAre(b.lists, b.sub.e);
    PushKeeps(a, b, c, amt, if amt == 0 then 0 else ptr);
    PushChunked(a, b, c, cur, n, r, amt, ptr);
  }

  lemma SameTail(a: St, e: nat)
    requires L(a.lists, Free) != []
    ensures L(MoveFront(a.lists, Free, Held), Tail(e)) == L(a.lists, Tail(e))
  {
  }

  lemma PushStable(a: St, b: St, c: St, amt: nat, cbp: int)
    requires Inv(a) && a.sub.Sub? && L(a.lists, Free) != [] && L(a.lists, Free)[0] < |a.td| == |a.own| && b == AllocS(a)
    requires Inv(b) && CanChunk(b, amt, cbp) && c == ChunkS(b, amt, cbp)
    ensures StableBut(a, c, Held)
  {
    hide Inv, ChunkLists;
    FreeOwned(a);
    ChunkHeads(b);
    OneStable(a, b, L(a.lists, Free)[0], Held);
    ghost var d, n := L(b.lists, Tail(b.sub.e))[0], L(b.lists, Held)[0];
    forall i: nat | i < |a.own| && Busy(a, a.own[i])
      ensures c.own[i] == a.own[i] && c.td[i] == a.td[i]
    {
      assert i != d && i != n;
    }
  }

  lemma PushChunked(a: St, b: St, c: St, cur: nat, n: nat, r: nat, amt: nat, ptr: int)
    requires Inv(a) && a.sub.Sub? && a.sub.r == r
    requires L(a.lists, Free) != [] && L(a.lists, Free)[0] == n < |a.td| == |a.own|
    requires b == AllocS(a) && Inv(b) && CanChunk(b, amt, if amt == 0 then 0 else ptr) && L(b.lists, Held)[0] == n
    requires c == ChunkS(b, amt, if amt == 0 then 0 else ptr) && L(a.lists, Tail(a.sub.e)) == [cur]
    ensures Chunked(a, c, a.sub.e, cur, PieceTd(n, r, amt, ptr))
  {
    hide Inv, ChunkLists;
    ChunkHeads(b);
    ChunkListsAre(b.lists, b.sub.e);
    FreeOwned(a);
  }

  lemma FreeOwned(a: St)
    requires Inv(a) && L(a.lists, Free) != []
    ensures L(a.lists, Free)[0] < |a.own| && a.own[L(a.lists, Free)[0]] == Free
  {
    hide FreeOk, DonesOk, EpsOk, TdsOk, ReqsOk;
    PartAt(a.lists, a.own, Free, 0);
  }

  lemma SubEp(s: St)
    requires Inv(s) && s.sub.Sub?
    ensures s.sub.e < |s.ep| && s.sub.r < |s.req| && s.ep[s.sub.e].open && !s.ep[s.sub.e].skip && |s.td| == |s.own|
  {
    NotSkipped(s);
  }

  /** Descriptors queued behind what was left of the old queue. */
  lemma SpreadBack(s: St, e: nat, r: nat, buf: int, len: nat, q: seq<nat>, q0: seq<nat>, ds: seq<nat>)
    requires Spread(s, e, r, buf, len, q, ds) && Suffix(q, q0)
    ensures Spread(s, e, r, buf, len, q0, ds)
  {
    var k := |q0| - |q|;
    assert q0 == q0[..k] + q;
    assert q0 + ds == q0[..k] + (q + ds);
    hide PieceAt;
  }

  lemma DrainedOn(c: St, m: St, at: St, x: St)
    requires HwKeeps(m, at) && HwKeeps(at, x)
    requires m.lists == c.lists && m.own == c.own && m.td == c.td && |m.ep| == |c.ep|
    ensures Drained(c, x)
  {
    hide Keeps;
    QueuesTrans(m, at, x);
  }

  lemma DrainedStore(c: St, x: St, e: nat, h: int)
    requires Drained(c, x) && e < |x.ep|
    ensures Drained(c, StoreHead(x, e, h))
  {
  }

  /** The endpoint is open all the time, and a head it has left is on a done list. */
  lemma ServedEp(m: St, at: St, x: St, e: nat)
    requires HwKeeps(m, at) && HwKeeps(at, x) && e < |m.ep| && m.ep[e].open && !m.ep[e].skip
    ensures e < |at.ep| == |x.ep| && at.ep[e].open && !at.ep[e].skip && x.ep[e].open && !x.ep[e].skip
    ensures x.ep[e].headp != at.ep[e].headp ==> 0 <= at.ep[e].headp < |x.own| && OnDone(x.own[at.ep[e].headp])
  {
    assert SameEp(at.ep[e], x.ep[e], x.own);
  }

  lemma IsStored(x: St, e: nat, h: int, f: St)
    requires e < |x.ep| && f == x.(ep := x.ep[e := x.ep[e].(headp := h, halted := false)])
    ensures f == StoreHead(x, e, h)
  {
  }

  /** The end of a submission, from the publishing of the tail pointer on. */
  lemma Committed(s: St, c: St, m: St, at: St, x: St, e: nat, tail: nat, last: seq<HwStep>, mid: seq<HwStep>,
                  fate: Fate)
    requires c.sub.Sub? && c.sub.e == e < |c.ep| && L(c.lists, Tail(e)) == [tail] && m == CommitS(c, tail)
    requires Inv(m) && Keeps(s, m) && m.ep[e].open && !m.ep[e].skip && e < |s.ep| && !(s.ep[e].open && s.ep[e].skip)
    requires at == HwRunS(m, last) && x == HwRunS(at, mid) && HwKeeps(m, at) && HwKeeps(at, x)
    requires e < |at.ep| == |x.ep| && fate == if x.ep[e].headp == at.ep[e].headp then Fine else Lost
    ensures Stored(at, e, mid, fate) && (Spares(mid, e) ==> fate.Fine?)
    ensures var f := StoreHead(x, e, at.ep[e].headp);
      && Drained(c, f) && f == CommitT(c, e, last, mid) && f.req == c.req && f.log == c.log
      && (fate.Lost? ==> Broken(f))
      && (fate.Fine? ==> Inv(f) && Keeps(s, f) && f.sub.Idle? && |f.acct| == |c.acct|)
      && (fate.Fine? ==> forall i: nat | i < |f.acct| :: SameRuns(c.acct[i], f.acct[i]))
  {
    hide Inv, Keeps, HwKeeps, HwRunS, Drained, Broken, CommitT;
    HwBegun(s, m, at, e);
    HwBegun(s, at, x, e);
    DrainedOn(c, m, at, x);
    ServedEp(m, at, x, e);
    var h := at.ep[e].headp;
    CommitIs(c, e, tail, last, mid, StoreHead(x, e, h));
    DrainedStore(c, x, e, h);
    if fate.Fine? {
      FreshHead(x, e);
      ResumeKeeps(s, x, e);
    } else {
      StaleBreaks(x, e, h);
    }
    if Spares(mid, e) {
      RunSpares(at, mid, e);
    }
  }

  lemma CommitIs(c: St, e: nat, tail: nat, last: seq<HwStep>, mid: seq<HwStep>, f: St)
    requires c.sub.Sub? && c.sub.e == e < |c.ep| && L(c.lists, Tail(e)) == [tail] && Inv(CommitS(c, tail))
    requires var at := HwRunS(CommitS(c, tail), last);
      e < |at.ep| && e < |HwRunS(at, mid).ep| && f == StoreHead(HwRunS(at, mid), e, at.ep[e].headp)
    ensures f == CommitT(c, e, last, mid)
  {
    hide Inv, HwRunS;
  }

  lemma NotSkipped(s: St)
    requires Inv(s) && s.sub.Sub?
    ensures s.sub.e < |s.ep| && s.ep[s.sub.e].open && !s.ep[s.sub.e].skip
  {
    assert EpOk(s.td, s.lists, s.ep[s.sub.e], s.sub.e, s.sub);
  }

  lemma KeepsRefl(a: St)
    requires Inv(a)
    ensures Keeps(a, a)
  {
    hide Inv;
    Lengths(a);
    GrewSame(a, a);
    hide Grew;
  }

  lemma BeginKeeps(s: St, e: nat, r: nat, len: nat)
    requires Inv(s) && r < |s.req| == |s.acct|
    ensures Keeps(s, BeginS(s, e, r, len))
  {
    hide Inv;
    Lengths(s);
    GrewBy(s, BeginS(s, e, r, len), Began(r, len));
    hide Grew;
  }

  /** One descriptor that no suspended routine holds changes. */
  lemma OneStable(a: St, b: St, d: nat, p: Place)
    requires |a.own| == |a.td| == |b.own| == |b.td| && d < |a.own| && (!Busy(a, a.own[d]) || a.own[d] == p)
    requires forall i: nat | i < |a.own| && i != d :: b.own[i] == a.own[i] && b.td[i] == a.td[i]
    ensures StableBut(a, b, p)
  {
  }

  lemma CommitKeeps(s: St, c: St, tail: int)
    requires Inv(c) && c.sub.Sub? && Keeps(s, c) && c.sub.e < |s.ep| && !(s.ep[c.sub.e].open && s.ep[c.sub.e].skip)
    ensures c.sub.e < |c.ep| && Keeps(s, CommitS(c, tail))
  {
    hide Inv;
    Lengths(c);
    SameGrew(s, c, CommitS(c, tail));
    hide Grew;
  }

  lemma SameGrew(s: St, b: St, c: St)
    requires Grew(s, b) && c.req == b.req && c.acct == b.acct && c.log == b.log
    ensures Grew(s, c)
  {
    forall r: nat | r < |s.req|
      ensures Told(s, c, r)
    {
      assert Told(s, b, r);
    }
  }

  lemma HwThen(s: St, b: St, c: St, e: nat)
    requires Inv(b) && Inv(c) && Keeps(s, b) && HwKeeps(b, c) && |s.acct| == |b.acct|
    requires forall i: nat | i < |b.acct| :: SameRuns(s.acct[i], b.acct[i])
    ensures Keeps(s, c) && c.sub == b.sub && c.req == b.req && |c.acct| == |s.acct| && c.log == b.log
    ensures L(c.lists, Free) == L(b.lists, Free) && L(c.lists, Tail(e)) == L(b.lists, Tail(e)) && Drained(b, c)
    ensures forall i: nat | i < |c.acct| :: SameRuns(s.acct[i], c.acct[i])
  {
    hide Inv, Keeps;
    HwOnly(b, c);
    KeepsTrans(s, b, c);
  }

  lemma HwBegun(s: St, b: St, c: St, e: nat)
    requires Inv(b) && Inv(c) && Keeps(s, b) && HwKeeps(b, c)
    ensures Keeps(s, c) && c.sub == b.sub && c.req == b.req && |c.acct| == |b.acct| && c.log == b.log
    ensures L(c.lists, Free) == L(b.lists, Free) && L(c.lists, Tail(e)) == L(b.lists, Tail(e))
    ensures e < |b.ep| ==> Suffix(L(c.lists, Wait(e)), L(b.lists, Wait(e)))
    ensures forall i: nat | i < |c.acct| :: SameRuns(b.acct[i], c.acct[i])
  {
    hide Inv, Keeps;
    HwOnly(b, c);
    KeepsTrans(s, b, c);
  }

  lemma ResumeKeeps(s: St, x: St, e: nat)
    requires Keeps(s, x) && e < |x.ep| && !(s.ep[e].open && s.ep[e].skip)
    ensures Keeps(s, StoreHead(x, e, x.ep[e].headp))
  {
    SameGrew(s, x, StoreHead(x, e, x.ep[e].headp));
    hide Grew;
  }

  /** Steps that leave running routines alone leave the queue at hand alone. */
  lemma BeforeRound(a: St, b: St, p: Place, depth: nat)
    requires Keeps(a, b) && Clear(a.lists, depth)
    requires p.Hand? || (p.Wait? && p.e < |a.ep| && a.ep[p.e].open && a.ep[p.e].skip)
    ensures KeepsBut(a, b, p) && L(b.lists, p) == L(a.lists, p) && Clear(b.lists, depth)
  {
  }

  /** With no submission under way the tail pointer names the dummy. */
  lemma DummyAt(s: St, e: nat)
    requires Inv(s) && s.sub.Idle? && e < |s.ep| && s.ep[e].open
    ensures 0 <= s.ep[e].tailp && L(s.lists, Tail(e)) == [s.ep[e].tailp]
  {
    assert EpOk(s.td, s.lists, s.ep[e], e, s.sub);
  }

  lemma ChunksZero()
    ensures Chunks(0) == 1
  {
  }

  lemma PushStep(s: St, left: nat, ptr: int, hw: seq<seq<HwStep>>, i: nat)
    requires left > 0
    ensures var amt: nat := if left > PKTLEN then PKTLEN else left;
      PushS(s, left, ptr, hw, i) == PushS(PieceS(s, amt, ptr, At(hw, i)), left - amt, ptr + amt, hw, i + 1)
  {
    hide PieceS;
  }

  lemma PieceIs(len: nat, done: nat, left: nat)
    requires left == len - done * PKTLEN
    ensures PieceLen(len, done) == if left > PKTLEN then PKTLEN else left
  {
  }

  lemma PushNone(s: St, ptr: int, hw: seq<seq<HwStep>>, i: nat)
    ensures PushS(s, 0, ptr, hw, i) == s
  {
  }

  lemma ChunksAre(len: nat)
    ensures Chunks(len) == if len == 0 then 1 else (len + 8175) / 8176
  {
  }

  lemma ChunksPositive(len: nat)
    ensures Chunks(len) >= 1
  {
  }

  // ----- What the parts of a routine leave alone

  /** Endpoints being deleted, apart from the queue `p`. */
  ghost predicate FrozenBut(a: St, b: St, p: Place) {
    |a.ep| == |b.ep| && forall e: nat | e < |a.ep| && a.ep[e].open && a.ep[e].skip ::
      && b.ep[e] == a.ep[e] && L(b.lists, Tail(e)) == L(a.lists, Tail(e))
      && (p == Wait(e) || L(b.lists, Wait(e)) == L(a.lists, Wait(e)))
  }

  ghost predicate KeepsBut(a: St, b: St, p: Place) {
    && |b.td| == |a.td| && |b.req| == |a.req| && L(b.lists, Held) == L(a.lists, Held) && FrozenBut(a, b, p)
    && (forall q: Place | q.Hand? && q != p :: L(b.lists, q) == L(a.lists, q))
    && StableBut(a, b, p) && Grew(a, b)
  }

  /** The first descriptor of `p` is in the driver's hands. */
  ghost predicate Taken(s: St, a: St, p: Place) {
    && |a.td| == |s.td| && |a.req| == |s.req| && a.ep == s.ep && L(s.lists, p) != []
    && L(a.lists, Held) == [L(s.lists, p)[0]] + L(s.lists, Held) && L(a.lists, p) == L(s.lists, p)[1..]
    && (forall q: Place | q != p && q != Held :: L(a.lists, q) == L(s.lists, q)) && StableBut(s, a, p) && Grew(s, a)
  }

  ghost predicate Mid(s: St, b: St, p: Place) {
    && |b.td| == |s.td| && |b.req| == |s.req| && L(s.lists, p) != []
    && L(b.lists, Held) == [L(s.lists, p)[0]] + L(s.lists, Held) && L(b.lists, p) == L(s.lists, p)[1..]
    && FrozenBut(s, b, p) && (forall q: Place | q.Hand? && q != p :: L(b.lists, q) == L(s.lists, q))
    && StableBut(s, b, p) && Grew(s, b)
  }

  lemma SettleKeeps(s: St, p: Place, got: int, cc: int)
    requires Inv(s) && Out(p) && L(s.lists, p) != []
    ensures var d := L(s.lists, p)[0]; d < |s.td| == |s.own| && 0 <= s.td[d].ref < |s.req| == |s.acct|
    ensures var q := s.req[s.td[L(s.lists, p)[0]].ref];
      Taken(s, SettleS(s, p, got, cc, if q.removing then CC_CANCELLED else cc), p)
  {
    SettleHead(s, p);
    SettleGrew(s, p, got, cc);
    hide Inv, Grew;
    var d := L(s.lists, p)[0];
    var q := s.req[s.td[d].ref];
    OneStable(s, SettleS(s, p, got, cc, if q.removing then CC_CANCELLED else cc), d, p);
  }

  lemma SettleGrew(s: St, p: Place, got: int, cc: int)
    requires Inv(s) && L(s.lists, p) != [] && L(s.lists, p)[0] < |s.td| == |s.own| && |s.req| == |s.acct|
    requires 0 <= s.td[L(s.lists, p)[0]].ref < |s.req|
    ensures var q := s.req[s.td[L(s.lists, p)[0]].ref];
      Grew(s, SettleS(s, p, got, cc, if q.removing then CC_CANCELLED else cc))
  {
    hide Inv;
    var d := L(s.lists, p)[0];
    var r := s.td[d].ref;
    var a := SettleS(s, p, got, cc, if s.req[r].removing then CC_CANCELLED else cc);
    GrewBy(s, a, Settled(d, p, r, got, cc));
  }

  lemma ClearMoved(s: St, p: Place, a: St, depth: nat)
    requires Taken(s, a, p) && Clear(s.lists, depth) && (p.Hand? ==> p.depth < depth) && p != Held
    ensures Clear(a.lists, depth)
  {
  }

  lemma FrozenAt(a: St, b: St, e: nat)
    requires Keeps(a, b) && e < |a.ep| && a.ep[e].open && a.ep[e].skip
    ensures e < |b.ep| && b.ep[e] == a.ep[e]
    ensures L(b.lists, Wait(e)) == L(a.lists, Wait(e)) && L(b.lists, Tail(e)) == L(a.lists, Tail(e))
  {
  }

  lemma CallbackKeeps(s: St, a: St, b: St, p: Place)
    requires Taken(s, a, p) && Keeps(a, b) && p != Held
    requires p.Hand? || (p.Wait? && p.e < |s.ep| && s.ep[p.e].open && s.ep[p.e].skip)
    ensures Mid(s, b, p)
  {
    GrewTrans(s, a, b);
    hide Grew;
  }

  lemma InHand(s: St, b: St, p: Place)
    requires Inv(s) && Inv(b) && Mid(s, b, p)
    ensures var d := L(s.lists, p)[0];
      && L(b.lists, Held) != [] && L(b.lists, Held)[0] == d < |b.td| == |b.own| == |s.own|
      && b.own[d] == Held && s.own[d] == p
  {
    hide Inv, Grew;
    Lengths(s);
    Lengths(b);
    OnThatList(s, p, L(s.lists, p)[0]);
    OnThatList(b, Held, L(b.lists, Held)[0]);
  }

  /** What the accounting does is what settling does. */
  lemma SettleIs(s: St, p: Place, a: St)
    requires Inv(s) && Out(p) && L(s.lists, p) != []
    requires var d := L(s.lists, p)[0]; d < |s.td| == |s.own| && 0 <= s.td[d].ref < |s.req| == |s.acct|
    requires var t := s.td[L(s.lists, p)[0]]; var cc := if p.Wait? then CC_CANCELLED else t.cc;
      a == SettleS(s, p, if p.Wait? then 0 else Got(t), cc, if s.req[t.ref].removing then CC_CANCELLED else cc)
    ensures a == SettleT(s, p) && (Completes(a) <==> a.req[s.td[L(s.lists, p)[0]].ref].tdcount == 0)
    ensures a.log == s.log + [Entry(s.td[L(s.lists, p)[0]], L(s.lists, p)[0], p)]
    ensures a.td == s.td && a.ep == s.ep && a.sub == s.sub && L(a.lists, p) == L(s.lists, p)[1..]
  {
    hide Inv;
  }

  lemma RoundIs(s0: St, s: St, a: St, b: St, f: St, p: Place, calls: Calls, depth: nat)
    requires Inv(s0) && s == (if calls.Calls? then HwRunS(s0, calls.before) else s0) && a == SettleT(s, p)
    requires Inv(b) && b == BetweenS(a, calls, depth) && L(b.lists, Held) != []
    requires L(b.lists, Held)[0] < |b.td| == |b.own| && f == FreeS(b)
    ensures f == RoundS(s0, p, calls, depth)
  {
    hide Inv, HwRunS, SettleT, BetweenS;
  }

  /** A round as a whole. */
  lemma RoundEnd(s0: St, s: St, a: St, b: St, f: St, p: Place, calls: Calls, depth: nat)
    requires Inv(s0) && Inv(s) && Inv(a) && Inv(b) && Keeps(s0, s) && Keeps(a, b) && s.log == s0.log
    requires s == (if calls.Calls? then HwRunS(s0, calls.before) else s0) && KeepsBut(s0, s, p)
    requires L(s.lists, p) != [] && L(s.lists, p)[0] < |s.td| && a == SettleT(s, p) && Taken(s, a, p)
    requires a.td == s.td && a.ep == s.ep && a.log == s.log + [Entry(s.td[L(s.lists, p)[0]], L(s.lists, p)[0], p)]
    requires Busy(s0, p) && (p.Hand? ==> p.depth < depth) && L(s.lists, p) == L(s0.lists, p)
    requires Mid(s, b, p) && b == BetweenS(a, calls, depth) && Deep(a, b, depth, Held)
    requires L(b.lists, Held) != [] && L(b.lists, Held)[0] == L(s.lists, p)[0] < |b.td| == |b.own| == |s.own|
    requires b.own[L(s.lists, p)[0]] == Held && s.own[L(s.lists, p)[0]] == p && f == FreeS(b)
    ensures KeepsBut(s0, f, p) && L(f.lists, p) == L(s0.lists, p)[1..] && f == RoundS(s0, p, calls, depth)
    ensures Round(s0, f, p, depth)
    ensures forall q: Place | q != Held && q != Free :: L(f.lists, q) == L(b.lists, q)
  {
    hide Inv, Keeps, KeepsBut, Mid, RoundS, Deep, HwRunS, SettleT, BetweenS;
    FreeKeeps(s, b, f, p);
    KeepsButTrans(s0, s, f, p);
    RoundIs(s0, s, a, b, f, p, calls, depth);
    KeepsBusy(s0, s);
    Busied(s0, s, p);
    var ev := Entry(s.td[L(s.lists, p)[0]], L(s.lists, p)[0], p);
    SameBusy(s, a);
    RoundLog(s0, s, a, b, f, p, depth, ev);
    assert L(a.lists, p) == L(s.lists, p)[1..];
    RoundRest(s0, s, a, b, f, p);
    DeepLog(s0, f, depth, p);
  }

  lemma SameBusy(s: St, a: St)
    requires a.ep == s.ep
    ensures BusyKept(s, a)
  {
  }

  lemma ButBusy(a: St, b: St, p: Place)
    requires KeepsBut(a, b, p)
    ensures BusyKept(a, b)
  {
    hide Grew, StableBut;
  }

  /** An interrupt settled exactly the descriptors that had been written back, once each
      and in their order. */
  ghost predicate Emptied(a: St, b: St, depth: nat) {
    && a.log <= b.log && (forall i: nat | i < |L(a.lists, DoneHcca)| :: L(a.lists, DoneHcca)[i] < |a.td|)
    && From(Since(a, b), Hand(depth)) == Entries(a.td, L(a.lists, DoneHcca), Hand(depth))
  }

  /** A deletion cancelled exactly the descriptors that were queued, in order. */
  ghost predicate Cancelled(a: St, b: St, e: nat) {
    && a.log <= b.log && (forall i: nat | i < |L(a.lists, Wait(e))| :: L(a.lists, Wait(e))[i] < |a.td|)
    && From(Since(a, b), Wait(e)) == Entries(a.td, L(a.lists, Wait(e)), Wait(e))
  }

  lemma AllCancelled(s: St, k: St, b: St, f: St, e: nat, hw: seq<HwStep>, depth: nat)
    requires Inv(s) && s.sub.Idle? && e < |s.ep| && s.ep[e].open && !s.ep[e].skip && k == HwT(SkipS(s, e), hw)
    requires Rounds(k, b, Wait(e), |L(k.lists, Wait(e))|, depth) && f.log == b.log
    ensures Deep(s, f, depth, Held) && Cancelled(s, f, e)
  {
    hide Inv, Deep, HwRunS, From;
    SkippedSame(s, k, e, hw);
    assert Deep(k, b, depth, Wait(e));
    DeepLog(k, b, depth, Wait(e));
    DeepWiden(s, k, b, depth, depth, Wait(e), Held);
    DeepOf(s, b, f, depth, Held);
    var l := L(k.lists, Wait(e));
    assert l[..|l|] == l && Since(k, b) == Since(s, f);
    assert Entries(k.td, l, Wait(e)) == Entries(s.td, l, Wait(e));
  }

  lemma SkippedSame(s: St, k: St, e: nat, hw: seq<HwStep>)
    requires Inv(s) && s.sub.Idle? && e < |s.ep| && s.ep[e].open && !s.ep[e].skip && k == HwT(SkipS(s, e), hw)
    ensures k.log == s.log && BusyKept(s, k) && L(k.lists, Wait(e)) == L(s.lists, Wait(e)) && |k.td| == |s.td|
    ensures forall i: nat | i < |L(s.lists, Wait(e))| ::
      L(s.lists, Wait(e))[i] < |s.td| && k.td[L(s.lists, Wait(e))[i]] == s.td[L(s.lists, Wait(e))[i]]
  {
    hide Inv, HwRunS, HwKeeps, Keeps;
    SkipInv(s, e);
    var x := SkipS(s, e);
    HwRunKeeps(x, hw);
    HwSub(x, k);
    HwOnly(x, k);
    KeepsBusy(x, k);
    Busied(x, k, Wait(e));
    forall i: nat | i < |L(s.lists, Wait(e))|
      ensures L(s.lists, Wait(e))[i] < |s.td| && k.td[L(s.lists, Wait(e))[i]] == s.td[L(s.lists, Wait(e))[i]]
    {
      assert SameAt(x, k, L(k.lists, Wait(e))[i]);
    }
  }

  /** Taking the list and going through it. */
  lemma AllTaken(s: St, a: St, b: St, hw: seq<HwStep>, depth: nat)
    requires Inv(s) && s.wdh && a == TakeS(HwRunS(s, hw), depth) && Clear(s.lists, depth)
    requires Rounds(a, b, Hand(depth), |L(a.lists, Hand(depth))|, depth + 1)
    ensures Deep(s, b, depth, Held) && Emptied(s, b, depth)
  {
    hide Inv, Deep, HwRunS, From;
    TakenSame(s, a, hw, depth);
    assert Deep(a, b, depth + 1, Hand(depth));
    DeepLog(a, b, depth + 1, Hand(depth));
    DeepWiden(s, a, b, depth + 1, depth, Hand(depth), Held);
    var l := L(a.lists, Hand(depth));
    assert l[..|l|] == l;
    assert Entries(a.td, l, Hand(depth)) == Entries(s.td, l, Hand(depth));
  }

  /** The list taken is the one written back, each descriptor as it was then. */
  lemma TakenSame(s: St, a: St, hw: seq<HwStep>, depth: nat)
    requires Inv(s) && s.wdh && a == TakeS(HwRunS(s, hw), depth)
    ensures a.log == s.log && BusyKept(s, a) && L(a.lists, Hand(depth)) == L(s.lists, DoneHcca) && |a.td| == |s.td|
    ensures forall i: nat | i < |L(s.lists, DoneHcca)| ::
      L(s.lists, DoneHcca)[i] < |s.td| && a.td[L(s.lists, DoneHcca)[i]] == s.td[L(s.lists, DoneHcca)[i]]
  {
    hide Inv, HwRunS;
    Lengths(s);
    HwRunKeeps(s, hw);
    var x := HwRunS(s, hw);
    RenamedAre(x.lists, DoneHcca, Hand(depth));
    forall i: nat | i < |L(s.lists, DoneHcca)|
      ensures L(s.lists, DoneHcca)[i] < |s.td| && a.td[L(s.lists, DoneHcca)[i]] == s.td[L(s.lists, DoneHcca)[i]]
    {
      Places(s, DoneHcca, i);
      var d := L(s.lists, DoneHcca)[i];
      assert SameTd(s.own[d], s.td[d], x.own[d], x.td[d]);
    }
  }

  lemma FreeKeeps(s: St, b: St, f: St, p: Place)
    requires Mid(s, b, p) && (p.Hand? || p.Wait?) && L(b.lists, Held) != [] && L(b.lists, Held)[0] < |b.td| == |b.own|
    requires b.own[L(b.lists, Held)[0]] == Held && s.own[L(b.lists, Held)[0]] == p && f == FreeS(b)
    ensures KeepsBut(s, f, p) && L(f.lists, p) == L(s.lists, p)[1..]
    ensures forall q: Place | q != Held && q != Free :: L(f.lists, q) == L(b.lists, q)
  {
    SameGrew(s, b, f);
    hide Grew;
  }

  lemma KeepsButRefl(a: St, p: Place)
    requires Inv(a)
    ensures KeepsBut(a, a, p)
  {
    hide Inv;
    Lengths(a);
    GrewSame(a, a);
    hide Grew;
  }

  lemma KeepsButTrans(a: St, b: St, c: St, p: Place)
    requires KeepsBut(a, b, p) && KeepsBut(b, c, p)
    ensures KeepsBut(a, c, p)
  {
    GrewTrans(a, b, c);
    hide Grew;
  }

  lemma ClearKept(a: St, b: St, depth: nat)
    requires KeepsBut(a, b, Hand(depth)) && Clear(a.lists, depth + 1)
    ensures Clear(b.lists, depth + 1)
  {
  }

  lemma ClearKeptBut(a: St, b: St, depth: nat, e: nat)
    requires KeepsBut(a, b, Wait(e)) && Clear(a.lists, depth)
    ensures Clear(b.lists, depth)
  {
  }

  lemma ClearKeeps(a: St, b: St, depth: nat)
    requires Keeps(a, b) && Clear(a.lists, depth)
    ensures Clear(b.lists, depth)
  {
  }

  lemma HwOnly(a: St, b: St)
    requires Inv(a) && Inv(b) && HwKeeps(a, b)
    ensures Keeps(a, b)
  {
    hide Inv;
    Lengths(a);
    GrewSame(a, b);
    hide Grew;
    forall d: nat | d < |a.own| && Busy(a, a.own[d])
      ensures b.own[d] == a.own[d] && b.td[d] == a.td[d]
    {
      assert SameTd(a.own[d], a.td[d], b.own[d], b.td[d]);
      if a.own[d].Wait? {
        OnItsList(a, d);
        OnThatList(b, a.own[d], d);
      }
    }
  }

  lemma OnItsList(s: St, d: nat)
    requires Inv(s) && d < |s.own|
    ensures d in L(s.lists, s.own[d])
  {
    hide FreeOk, DonesOk, EpsOk, TdsOk, ReqsOk;
  }

  lemma OnThatList(s: St, p: Place, d: nat)
    requires Inv(s) && d in L(s.lists, p)
    ensures d < |s.own| && s.own[d] == p
  {
    hide FreeOk, DonesOk, EpsOk, TdsOk, ReqsOk;
    var i :| 0 <= i < |L(s.lists, p)| && L(s.lists, p)[i] == d;
    PartAt(s.lists, s.own, p, i);
  }

  lemma TakeKeeps(s: St, depth: nat)
    requires Inv(s) && Clear(s.lists, depth)
    ensures KeepsBut(s, TakeS(s, depth), Hand(depth)) && Clear(TakeS(s, depth).lists, depth + 1)
  {
    hide Inv;
    Lengths(s);
    GrewSame(s, TakeS(s, depth));
    hide Grew;
  }

  lemma HandBack(s: St, a: St, b: St, depth: nat)
    requires KeepsBut(s, a, Hand(depth)) && KeepsBut(a, b, Hand(depth)) && Inv(s)
    requires L(b.lists, Hand(depth)) == L(s.lists, Hand(depth)) == []
    ensures Keeps(s, b)
  {
    hide Inv;
    KeepsButTrans(s, a, b, Hand(depth));
    hide Grew;
    forall d: nat | d < |s.own| && Busy(s, s.own[d])
      ensures b.own[d] == s.own[d] && b.td[d] == s.td[d]
    {
      OnItsList(s, d);
    }
  }

  lemma ClosedLists(s: St, e: nat)
    requires Inv(s) && e < |s.ep| && !s.ep[e].open
    ensures L(s.lists, Wait(e)) == [] && L(s.lists, Tail(e)) == []
  {
    assert EpOk(s.td, s.lists, s.ep[e], e, s.sub);
  }

  lemma HeadAt(s: St, e: nat)
    requires Inv(s) && s.sub.Idle? && e < |s.ep| && s.ep[e].open && !s.ep[e].skip
    ensures s.ep[e].tailp >= 0 && L(s.lists, Tail(e)) == [s.ep[e].tailp]
    ensures s.ep[e].headp == First(L(s.lists, Wait(e)), s.ep[e].tailp)
  {
    assert EpOk(s.td, s.lists, s.ep[e], e, s.sub);
  }

  /** The walk reaches the dummy only when the queue is empty. */
  lemma QueueDone(s: St, e: nat)
    requires Inv(s) && e < |s.ep| && L(s.lists, Tail(e)) == [s.ep[e].tailp]
    requires First(L(s.lists, Wait(e)), s.ep[e].tailp) == s.ep[e].tailp
    ensures L(s.lists, Wait(e)) == []
  {
    PartAt(s.lists, s.own, Tail(e), 0);
    if L(s.lists, Wait(e)) != [] {
      PartAt(s.lists, s.own, Wait(e), 0);
    }
  }

  lemma DeleteKeeps(s: St, k: St, b: St, x: St, f: St, e: nat)
    requires e < |s.ep| && !s.ep[e].skip && k == SkipS(s, e) && KeepsBut(k, b, Wait(e))
    requires e < |b.ep| && L(b.lists, Tail(e)) != [] && L(b.lists, Tail(e))[0] < |b.own| && x == CloseS(b, e)
    requires L(x.lists, Held) != [] && L(x.lists, Held)[0] < |x.td| == |x.own| && f == FreeS(x)
    requires L(b.lists, Wait(e)) == [] && |L(b.lists, Tail(e))| == 1 && b.own[L(b.lists, Tail(e))[0]] == Tail(e)
    ensures Keeps(s, f) && L(f.lists, Wait(e)) == [] && L(f.lists, Tail(e)) == []
  {
    DeleteGrew(s, b, x, f, e);
    hide Grew;
    assert L(f.lists, Held) == L(b.lists, Held);
    assert forall q: Place | q != Held && q != Free && q != Tail(e) :: L(f.lists, q) == L(b.lists, q);
  }

  lemma DeleteGrew(s: St, b: St, x: St, f: St, e: nat)
    requires e < |s.ep| && Grew(SkipS(s, e), b) && x.req == b.req == f.req && x.acct == b.acct == f.acct
    requires x.log == b.log == f.log
    ensures Grew(s, f)
  {
    SameGrew(SkipS(s, e), b, f);
    forall r: nat | r < |s.req|
      ensures Told(s, f, r)
    {
      assert Told(SkipS(s, e), f, r);
    }
  }

  lemma FreeLink(s: St, n: nat)
    requires Inv(s) && n < |L(s.lists, Free)|
    ensures var f := L(s.lists, Free); f[n..][0] == f[n] < |s.td| && s.td[f[n]].tnext == First(f[n + 1..], NIL)
  {
    assert FreeLinked(s.td, L(s.lists, Free));
  }

  lemma FreeHead(s: St)
    requires Inv(s)
    ensures s.freelist == First(L(s.lists, Free), NIL) && |s.td| == |s.own|
    ensures s.freelist != NIL ==> 0 <= s.freelist < |s.td| && L(s.lists, Free) != []
  {
    if L(s.lists, Free) != [] {
      PartAt(s.lists, s.own, Free, 0);
    }
  }
}
