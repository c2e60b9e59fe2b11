/** What the driver's calls do to the state, on values: every call with everything that
    happens while it runs. Steps that are not possible leave the state as it is. */
module OhciActs {
  import opened PlaceLists
  import opened OhciPlaces
  import opened OhciState
  import opened OhciSteps
  import opened OhciHw

  /** A call into the driver, with what happens while it runs: controller steps between
      any two steps of the driver, and driver calls made by the completion callbacks. */
  datatype Act =
    | Create(e: nat, hw: seq<HwStep>)
    | Submit(e: nat, r: nat, len: nat, buf: int, rounds: seq<seq<HwStep>>, last: seq<HwStep>, mid: seq<HwStep>)
    | Hardware(step: HwStep)
    | Interrupt(hw: seq<HwStep>, calls: Calls)
    | Delete(e: nat, hw: seq<HwStep>, calls: Calls, last: seq<HwStep>)
  datatype Acts = End | Then(act: Act, rest: Acts)

  /** The rounds of a loop over descriptors: controller steps before the descriptor is
      looked at and before it is freed, and what the callback does if there is one. */
  datatype Calls = NoCalls | Calls(before: seq<HwStep>, first: Acts, after: seq<HwStep>, more: Calls)

  function More(calls: Calls): Calls {
    if calls.Calls? then calls.more else calls
  }

  /** Number of descriptors a request of `len` bytes takes. */
  function Chunks(len: nat): nat {
    if len == 0 then 1 else (len + PKTLEN - 1) / PKTLEN
  }

  // ----- Single steps

  ghost function HwT(s: St, hs: seq<HwStep>): St {
    if Inv(s) then HwRunS(s, hs) else s
  }

  ghost function AllocT(s: St): St {
    if Inv(s) && L(s.lists, Free) != [] then AllocInv(s); AllocS(s) else s
  }

  ghost function FreeT(s: St): St {
    if Inv(s) && L(s.lists, Held) != [] then FreeInv(s); FreeS(s) else s
  }

  /** The first descriptor of a done list or of a queue being deleted is settled. */
  ghost function SettleT(s: St, p: Place): St {
    if !(Inv(s) && Out(p) && L(s.lists, p) != []) then s
    else
      SettleHead(s, p);
      var t := s.td[L(s.lists, p)[0]];
      var cc := if p.Wait? then CC_CANCELLED else t.cc;
      SettleS(s, p, if p.Wait? then 0 else Got(t), cc, if s.req[t.ref].removing then CC_CANCELLED else cc)
  }

  /** The settlement just made was its request's last. */
  ghost predicate Completes(s: St) {
    && s.log != [] && s.log[|s.log| - 1].Settled?
    && var r := s.log[|s.log| - 1].r; 0 <= r < |s.req| && s.req[r].tdcount == 0
  }

  // ----- Submitting

  ghost function ChunkT(s: St, amt: nat, cbp: int): St {
    var b := AllocT(s);
    if Inv(b) && CanChunk(b, amt, cbp) then ChunkS(b, amt, cbp) else b
  }

  ghost function PieceS(s: St, amt: nat, ptr: int, hw: seq<HwStep>): St {
    HwT(ChunkT(s, amt, if amt == 0 then 0 else ptr), hw)
  }

  ghost function PushS(s: St, left: nat, ptr: int, hw: seq<seq<HwStep>>, i: nat): St
    decreases left
  {
    if left == 0 then s
    else
      var amt: nat := if left > PKTLEN then PKTLEN else left;
      PushS(PieceS(s, amt, ptr, At(hw, i)), left - amt, ptr + amt, hw, i + 1)
  }

  function At(hw: seq<seq<HwStep>>, i: nat): seq<HwStep> {
    if i < |hw| then hw[i] else []
  }

  ghost function StoreT(s: St, e: nat, h: int): St {
    if e < |s.ep| then StoreHead(s, e, h) else s
  }

  ghost function HeadOfEp(s: St, e: nat): int {
    if e < |s.ep| then s.ep[e].headp else NIL
  }

  ghost function LastTail(s: St, e: nat): int {
    First(L(s.lists, Tail(e)), NIL)
  }

  /** The tail pointer, and the head pointer loaded in one state and stored in another. */
  ghost function CommitT(s: St, e: nat, last: seq<HwStep>, mid: seq<HwStep>): St {
    if !(s.sub.Sub? && s.sub.e < |s.ep|) then s
    else
      var at := HwT(CommitS(s, LastTail(s, e)), last);
      StoreT(HwT(at, mid), e, HeadOfEp(at, e))
  }

  ghost function RequestS(s: St, len: nat, buf: int, hw: seq<seq<HwStep>>): St {
    if len == 0 then PieceS(s, 0, 0, At(hw, 1)) else PushS(s, len, buf, hw, 1)
  }

  ghost function XferS(s: St, e: nat, r: nat, len: nat, buf: int, hw: seq<seq<HwStep>>, last: seq<HwStep>,
                       mid: seq<HwStep>): St
    requires r < |s.req| == |s.acct|
  {
    var b := HwT(BeginS(s, e, r, len), At(hw, 0));
    CommitT(RequestS(b, len, buf, hw), e, last, mid)
  }

  // ----- Loops with callbacks

  ghost function BetweenS(s: St, calls: Calls, depth: nat): St
    decreases calls, 0
  {
    if calls.NoCalls? then s
    else HwT(if Completes(s) then RunS(s, calls.first, depth) else s, calls.after)
  }

  /** One descriptor of list `p`: settled, its callback made, and freed. */
  ghost function RoundS(s: St, p: Place, calls: Calls, depth: nat): St
    decreases calls, 1
  {
    FreeT(BetweenS(SettleT(if calls.Calls? then HwT(s, calls.before) else s, p), calls, depth))
  }

  ghost function LoopS(s: St, p: Place, n: nat, calls: Calls, depth: nat): St
    decreases calls, 2, n
  {
    if n == 0 then s else LoopS(RoundS(s, p, calls, depth), p, n - 1, More(calls), depth)
  }

  // ----- The calls

  ghost function IntrS(s: St, hw: seq<HwStep>, calls: Calls, depth: nat): St
    decreases calls, 3
  {
    if !s.wdh then s
    else
      var x := TakeS(HwT(s, hw), depth);
      LoopS(x, Hand(depth), |L(x.lists, Hand(depth))|, calls, depth + 1)
  }

  ghost function CreateS(s: St, e: nat, hw: seq<HwStep>): St {
    var a := HwT(AllocT(s), hw);
    if e < |a.ep| && L(a.lists, Held) != [] && L(a.lists, Held)[0] < |a.own| then OpenS(a, e) else a
  }

  ghost function DeleteS(s: St, e: nat, hw: seq<HwStep>, calls: Calls, last: seq<HwStep>, depth: nat): St
    requires e < |s.ep|
    decreases calls, 3
  {
    var k := HwT(SkipS(s, e), hw);
    CloseT(LoopS(k, Wait(e), |L(k.lists, Wait(e))|, calls, depth), e, last)
  }

  ghost function CloseT(s: St, e: nat, last: seq<HwStep>): St {
    var b := HwT(s, last);
    FreeT(if e < |b.ep| && L(b.lists, Tail(e)) != [] && L(b.lists, Tail(e))[0] < |b.own| then CloseS(b, e) else b)
  }

  ghost function ActS(s: St, act: Act, depth: nat): St
    decreases act
  {
    match act
    case Create(e, hw) => if e < |s.ep| && !s.ep[e].open && L(s.lists, Free) != [] then CreateS(s, e, hw) else s
    case Submit(e, r, len, buf, rounds, last, mid) =>
      if CanSubmit(s, e, r) && |s.req| == |s.acct| && |L(s.lists, Free)| >= Chunks(len) && (len > 0 ==> buf > 0)
      then XferS(s, e, r, len, buf, rounds, last, mid) else s
    case Hardware(h) => if Inv(s) then HwS(s, h) else s
    case Interrupt(hw, calls) => IntrS(s, hw, calls, depth)
    case Delete(e, hw, calls, last) =>
      if e < |s.ep| && s.ep[e].open && !s.ep[e].skip then DeleteS(s, e, hw, calls, last, depth) else s
  }

  ghost function RunS(s: St, acts: Acts, depth: nat): St
    decreases acts
  {
    if acts.End? then s else RunS(ActS(s, acts.act, depth), acts.rest, depth)
  }
}
