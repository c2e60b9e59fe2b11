/** Writing a whole tree through the sequential writer and reading it back. */
module FdtRoundTrip {
  import opened FdtBytes
  import opened FdtTree
  import opened FdtFormat
  import opened FdtBlob
  import opened FdtUnique
  import opened FdtEdit
  import opened FdtDraft
  import opened FdtWriter
  import opened FdtFinish

  predicate Sendable(name: Name, value: seq<byte>) {
    0 !in name && |name| < TWO31 - 8 && |value| < TWO31 - 16
  }

  /** Names are C strings and sizes fit the int parameters of the interface. */
  predicate Writable(n: Node) {
    && 0 !in n.name && |n.name| < TWO31 - 8
    && (forall i | 0 <= i < |n.props| :: Sendable(n.props[i].name, n.props[i].value))
    && forall i | 0 <= i < |n.children| :: Writable(n.children[i])
  }

  // ----- How much room a tree takes

  function EventLen(e: Event): nat {
    match e
    case EBegin(name) => TokLen(Begin(name))
    case EProp(_, value) => 12 + Align4(|value|)
    case EEnd => 4
  }

  /** Structure bytes and strings after writing the events. */
  function StructLen(ev: seq<Event>): nat {
    if ev == [] then 0 else StructLen(ev[..|ev| - 1]) + EventLen(ev[|ev| - 1])
  }

  ghost function Strings(ev: seq<Event>): seq<byte> {
    if ev == [] then []
    else
      var n := |ev| - 1;
      if ev[n].EProp? then Pooled(Strings(ev[..n]), ev[n].name) else Strings(ev[..n])
  }

  ghost function Room(ev: seq<Event>): nat {
    StructLen(ev) + |Strings(ev)|
  }

  lemma RoomOne(ev: seq<Event>, e: Event)
    ensures StructLen(ev + [e]) == StructLen(ev) + EventLen(e)
    ensures Strings(ev + [e]) == if e.EProp? then Pooled(Strings(ev), e.name) else Strings(ev)
  {
    assert (ev + [e])[..|ev|] == ev;
  }

  lemma {:induction false} RoomGrows(a: seq<Event>, b: seq<Event>)
    ensures Room(a) <= Room(a + b)
    decreases |b|
  {
    if b == [] {
      assert a + b == a;
    } else {
      var n := |b| - 1;
      RoomGrows(a, b[..n]);
      RoomOne(a + b[..n], b[n]);
      assert a + b == a + b[..n] + [b[n]];
    }
  }

  /** A draft is as large as its events ask for. */
  ghost predicate Sized(d: Draft) {
    Size(d.toks) == StructLen(DraftEvents(d)) && d.strs == Strings(DraftEvents(d))
  }

  ghost predicate HasRoom(n: nat, d: Draft, ev: seq<Event>) {
    StructStart(d) + Room(ev) <= n
  }

  /** A name that has to be added is too long for everything below the strings: up to
      there the events have room, and with it the strings alone exceed the buffer. */
  ghost predicate Bursts(n: nat, d: Draft, ev: seq<Event>) {
    exists i | 0 <= i < |ev| :: HasRoom(n, d, ev[..i]) && |Strings(ev[..i + 1])| > n
  }

  /** How writing the events ends. */
  ghost function Verdict(n: nat, d: Draft, ev: seq<Event>): int {
    if HasRoom(n, d, ev) then 0 else if Bursts(n, d, ev) then OUTSIDE else NOSPACE
  }

  lemma RoomFor(n: nat, d: Draft, ev: seq<Event>, more: seq<Event>)
    requires HasRoom(n, d, ev + more)
    ensures HasRoom(n, d, ev)
  {
    hide Room;
    RoomGrows(ev, more);
  }

  /** One call of the writer, in terms of room. */
  lemma Wrote(n: nat, d: Draft, d': Draft, e: Event, err: int)
    requires Sized(d) && d'.rsv == d.rsv && HasRoom(n, d, DraftEvents(d))
    requires var strs := if e.EProp? then Pooled(d.strs, e.name) else d.strs;
      err == if |strs| > n then OUTSIDE
             else if StructStart(d) + Size(d.toks) + EventLen(e) + |strs| > n then NOSPACE else 0
    requires err == 0 ==> Size(d'.toks) == Size(d.toks) + EventLen(e)
    requires err == 0 ==> d'.strs == if e.EProp? then Pooled(d.strs, e.name) else d.strs
    requires err == 0 ==> DraftEvents(d') == DraftEvents(d) + [e]
    ensures err == Verdict(n, d, DraftEvents(d) + [e])
    ensures err == 0 ==> Sized(d')
  {
    hide Size, DraftEvents, StructLen, Strings, Pooled, EventLen;
    RoomOne(DraftEvents(d), e);
    BurstOne(n, d, DraftEvents(d), e);
  }

  lemma BurstOne(n: nat, d: Draft, ev: seq<Event>, e: Event)
    requires HasRoom(n, d, ev)
    ensures Bursts(n, d, ev + [e]) <==> |Strings(ev + [e])| > n
  {
    hide Room, Strings, HasRoom;
    var all := ev + [e];
    if |Strings(all)| > n {
      assert all[..|ev|] == ev && all[..|ev| + 1] == all;
    }
    forall i | 0 <= i < |all| && HasRoom(n, d, all[..i]) && |Strings(all[..i + 1])| > n
      ensures |Strings(all)| > n
    {
      if i == |ev| {
        assert all[..i + 1] == all;
      } else {
        assert all[..i + 1] == ev[..i + 1] && ev == ev[..i + 1] + ev[i + 1..];
        RoomFor(n, d, ev[..i + 1], ev[i + 1..]);
        RoomStrings(n, d, ev[..i + 1]);
      }
    }
  }

  lemma RoomStrings(n: nat, d: Draft, ev: seq<Event>)
    ensures HasRoom(n, d, ev) ==> |Strings(ev)| <= n
  {
  }

  /** fdt_begin_node, the properties, the subnodes, fdt_end_node. */
  method WriteTree(fdt: array<byte>, n: Node, ghost d: Draft) returns (err: int, ghost d': Draft)
    requires Drafts(fdt[..], d) && Fits(fdt[..], d) && Sized(d) && Writable(n)
    modifies fdt
    ensures err == Verdict(fdt.Length, d, DraftEvents(d) + Flat(n))
    ensures err != OUTSIDE ==> Drafts(fdt[..], d') && Fits(fdt[..], d') && d'.rsv == d.rsv
    ensures err == 0 ==> DraftEvents(d') == DraftEvents(d) + Flat(n) && Sized(d')
    decreases n
  {
    hide Drafts, Fits, DraftEvents, Size, TokLen, FlatAll, Sized, HasRoom, EventLen, Pooled, Bursts, StringGrowth;
    SizedFits(fdt[..], d);
    ghost var e0, ps, cs := DraftEvents(d), PropEvents(n.props), FlatAll(n.children);
    err, d' := BeginNode(fdt, n.name, d);
    BeginWrote(fdt.Length, d, d', n.name, err);
    ghost var e := e0 + [EBegin(n.name)];
    Parts(e0, [EBegin(n.name)], ps, cs, [EEnd]);
    if err != 0 {
      NoRoom(fdt.Length, d, e, ps + cs + [EEnd]);
      return;
    }
    assert e + ps[..0] == e;
    for i := 0 to |n.props|
      invariant Drafts(fdt[..], d') && Fits(fdt[..], d') && d'.rsv == d.rsv && Sized(d')
      invariant DraftEvents(d') == e + ps[..i] && HasRoom(fdt.Length, d, e + ps[..i])
    {
      ghost var d1 := d';
      SizedFits(fdt[..], d1);
      err, d' := WriteProperty(fdt, n.props[i].name, n.props[i].value, d1);
      PropWrote(fdt.Length, d1, d', n.props[i].name, n.props[i].value, err);
      SameStart(fdt.Length, d, d1, DraftEvents(d1) + [ps[i]]);
      Snoc(e, ps, i);
      if err != 0 {
        Rest(e, ps, cs + [EEnd], i + 1);
        NoRoom(fdt.Length, d, e + ps[..i + 1], ps[i + 1..] + (cs + [EEnd]));
        return;
      }
    }
    assert ps[..|n.props|] == ps;
    e := e + ps;
    NoNodes(n.children);
    assert e + [] == e;
    for i := 0 to |n.children|
      invariant Drafts(fdt[..], d') && Fits(fdt[..], d') && d'.rsv == d.rsv && Sized(d')
      invariant DraftEvents(d') == e + FlatAll(n.children[..i]) && HasRoom(fdt.Length, d, e + FlatAll(n.children[..i]))
    {
      ghost var d1 := d';
      err, d' := WriteTree(fdt, n.children[i], d1);
      SameStart(fdt.Length, d, d1, DraftEvents(d1) + Flat(n.children[i]));
      OneMore(e, n.children, i);
      if err != 0 {
        RestAll(e, n.children, [EEnd], i + 1);
        NoRoom(fdt.Length, d, e + FlatAll(n.children[..i + 1]), FlatAll(n.children[i + 1..]) + [EEnd]);
        return;
      }
    }
    assert n.children[..|n.children|] == n.children;
    ghost var d1 := d';
    SizedFits(fdt[..], d1);
    err, d' := EndNodeTag(fdt, d1);
    EndWrote(fdt.Length, d1, d', err);
    SameStart(fdt.Length, d, d1, DraftEvents(d1) + [EEnd]);
  }

  lemma Snoc<T>(e: seq<T>, s: seq<T>, i: nat)
    requires i < |s|
    ensures e + s[..i] + [s[i]] == e + s[..i + 1]
  {
  }

  lemma NoNodes(ns: seq<Node>)
    ensures FlatAll(ns[..0]) == []
  {
  }

  lemma OneMore(e: seq<Event>, ns: seq<Node>, i: nat)
    requires i < |ns|
    ensures e + FlatAll(ns[..i]) + Flat(ns[i]) == e + FlatAll(ns[..i + 1])
  {
    hide Flat;
    assert ns[..i + 1] == ns[..i] + [ns[i]];
    FlatAllConcat(ns[..i], [ns[i]]);
    FlatAllOne(ns[i]);
  }

  lemma Parts<T>(e: seq<T>, a: seq<T>, b: seq<T>, c: seq<T>, f: seq<T>)
    ensures e + (a + b + c + f) == e + a + (b + c + f) == e + a + b + c + f == e + a + b + (c + f)
  {
  }

  lemma Rest<T>(e: seq<T>, s: seq<T>, f: seq<T>, i: nat)
    requires i <= |s|
    ensures e + s + f == e + s[..i] + (s[i..] + f)
  {
    assert s == s[..i] + s[i..];
  }

  lemma RestAll(e: seq<Event>, ns: seq<Node>, f: seq<Event>, i: nat)
    requires i <= |ns|
    ensures e + FlatAll(ns) + f == e + FlatAll(ns[..i]) + (FlatAll(ns[i..]) + f)
  {
    hide Flat, FlatAll;
    assert ns == ns[..i] + ns[i..];
    FlatAllConcat(ns[..i], ns[i..]);
  }

  lemma NoRoom(n: nat, d: Draft, ev: seq<Event>, more: seq<Event>)
    requires !HasRoom(n, d, ev)
    ensures Verdict(n, d, ev + more) == Verdict(n, d, ev)
  {
    hide HasRoom, Strings;
    var all := ev + more;
    if HasRoom(n, d, all) {
      RoomFor(n, d, ev, more);
    }
    if Bursts(n, d, ev) {
      var i :| 0 <= i < |ev| && HasRoom(n, d, ev[..i]) && |Strings(ev[..i + 1])| > n;
      assert all[..i] == ev[..i] && all[..i + 1] == ev[..i + 1];
    }
    if Bursts(n, d, all) {
      var i :| 0 <= i < |all| && HasRoom(n, d, all[..i]) && |Strings(all[..i + 1])| > n;
      if i < |ev| {
        assert all[..i] == ev[..i] && all[..i + 1] == ev[..i + 1];
      } else {
        assert all[..i] == ev + all[|ev|..i];
        RoomFor(n, d, ev, all[|ev|..i]);
      }
    }
  }

  lemma SizedFits(s: seq<byte>, d: Draft)
    requires Sized(d)
    ensures Fits(s, d) <==> HasRoom(|s|, d, DraftEvents(d))
  {
  }

  lemma SameStart(n: nat, d: Draft, d': Draft, ev: seq<Event>)
    requires d'.rsv == d.rsv
    ensures HasRoom(n, d', ev) <==> HasRoom(n, d, ev)
    ensures Verdict(n, d', ev) == Verdict(n, d, ev)
  {
  }

  lemma BeginWrote(n: nat, d: Draft, d': Draft, name: Name, err: int)
    requires Sized(d) && d'.rsv == d.rsv && HasRoom(n, d, DraftEvents(d))
    requires err == if StructStart(d) + Size(d.toks) + TokLen(Begin(name)) + |d.strs| > n then NOSPACE else 0
    requires err == 0 ==> Size(d'.toks) == Size(d.toks) + TokLen(Begin(name)) && d'.strs == d.strs
    requires DraftEvents(d') == DraftEvents(d) + if err == 0 then [EBegin(name)] else []
    ensures err == Verdict(n, d, DraftEvents(d) + [EBegin(name)])
    ensures err == 0 ==> Sized(d')
  {
    hide Size, DraftEvents, HasRoom, Sized, Bursts;
    HeldStrings(n, d);
    Wrote(n, d, d', EBegin(name), err);
  }

  lemma EndWrote(n: nat, d: Draft, d': Draft, err: int)
    requires Sized(d) && d'.rsv == d.rsv && HasRoom(n, d, DraftEvents(d))
    requires err == if StructStart(d) + Size(d.toks) + 4 + |d.strs| > n then NOSPACE else 0
    requires err == 0 ==> Size(d'.toks) == Size(d.toks) + 4 && d'.strs == d.strs
    requires DraftEvents(d') == DraftEvents(d) + if err == 0 then [EEnd] else []
    ensures err == Verdict(n, d, DraftEvents(d) + [EEnd])
    ensures err == 0 ==> Sized(d')
  {
    hide Size, DraftEvents, HasRoom, Sized, Bursts;
    HeldStrings(n, d);
    Wrote(n, d, d', EEnd, err);
  }

  lemma PropWrote(n: nat, d: Draft, d': Draft, name: Name, value: seq<byte>, err: int)
    requires Sized(d) && d'.rsv == d.rsv && HasRoom(n, d, DraftEvents(d))
    requires var need := StructStart(d) + Size(d.toks) + 12 + Align4(|value|) + |d.strs| + StringGrowth(d.strs, name);
      err == if |d.strs| + StringGrowth(d.strs, name) > n then OUTSIDE else if need > n then NOSPACE else 0
    requires err == 0 ==> Size(d'.toks) == Size(d.toks) + 12 + Align4(|value|) && d'.strs == Pooled(d.strs, name)
    requires DraftEvents(d') == DraftEvents(d) + if err == 0 then [EProp(name, value)] else []
    ensures err == Verdict(n, d, DraftEvents(d) + [EProp(name, value)])
    ensures err == 0 ==> Sized(d')
  {
    hide Size, DraftEvents, HasRoom, Sized, StringGrowth, Bursts;
    Wrote(n, d, d', EProp(name, value), err);
  }

  lemma HeldStrings(n: nat, d: Draft)
    requires Sized(d) && HasRoom(n, d, DraftEvents(d))
    ensures |d.strs| <= n
  {
  }

  /** A draft with its map closed and nothing else. */
  function MapOnly(rsv: seq<Reserve>): Draft {
    Draft(rsv + [Reserve(0, 0)], [], [])
  }

  predicate MapFits(n: nat, rsv: seq<Reserve>) {
    RSV_START + 16 * |rsv| + 16 <= n
  }

  /** A tree whose strings fit by themselves never makes the writer leave the buffer. */
  lemma FitsNoBurst(n: nat, d: Draft, ev: seq<Event>)
    requires |Strings(ev)| <= n
    ensures !Bursts(n, d, ev)
  {
    hide HasRoom, Strings;
    forall i | 0 <= i < |ev|
      ensures !(HasRoom(n, d, ev[..i]) && |Strings(ev[..i + 1])| > n)
    {
      StringsGrow(ev[..i + 1], ev[i + 1..]);
      assert ev == ev[..i + 1] + ev[i + 1..];
    }
  }

  lemma {:induction false} StringsGrow(a: seq<Event>, b: seq<Event>)
    ensures |Strings(a)| <= |Strings(a + b)|
    decreases |b|
  {
    if b == [] {
      assert a + b == a;
    } else {
      var n := |b| - 1;
      StringsGrow(a, b[..n]);
      RoomOne(a + b[..n], b[n]);
      assert a + b == a + b[..n] + [b[n]];
    }
  }

  lemma OneProperty(name: Name)
    ensures Flat(Node([], [Property(name, [])], [])) == [EBegin([]), EProp(name, []), EEnd]
  {
    assert FlatAll([]) == [];
  }

  lemma NoEvents()
    ensures Strings([]) == [] && StructLen([]) == 0
  {
  }

  lemma NewName(name: Name)
    ensures |Pooled([], name)| == |name| + 1
  {
  }

  /** A root with one property whose name is as long as the buffer: the writer leaves the
      buffer instead of answering that there is no space. */
  lemma LongName(n: nat, rsv: seq<Reserve>, name: Name)
    requires MapFits(n, rsv) && RSV_START + 16 * |rsv| + 24 <= n <= |name|
    ensures Bursts(n, MapOnly(rsv), Flat(Node([], [Property(name, [])], [])))
  {
    hide Flat, Strings, StructLen, Pooled;
    var e0, e1 := EBegin([]), EProp(name, []);
    var ev := Flat(Node([], [Property(name, [])], []));
    OneProperty(name);
    var i := 1;
    assert ev[..i] == [] + [e0] && ev[..i + 1] == [] + [e0] + [e1];
    RoomOne([], e0);
    RoomOne([] + [e0], e1);
    NoEvents();
    NewName(name);
    assert HasRoom(n, MapOnly(rsv), ev[..i]) && |Strings(ev[..i + 1])| > n;
  }

  /** The whole protocol: fdt_create, the reserve entries, fdt_finish_reservemap,
      the tree, fdt_finish. It succeeds exactly when the buffer has room for the header,
      the map with its terminator, the structure with its end tag and the strings, and
      leaves the buffer exactly when a name bursts it. After a success
      the buffer is a complete blob whose map is `rsv` and whose token walk decodes to
      `t`, and to nothing else. */
  method WriteBlob(fdt: array<byte>, rsv: seq<Reserve>, t: Node) returns (err: int, ghost v: View)
    requires fdt.Length < TWO31 && Writable(t)
    requires forall i | 0 <= i < |rsv| :: rsv[i].size != 0
    modifies fdt
    ensures err == 0 || err == NOSPACE || err == OUTSIDE
    ensures err == 0 <==> RSV_START + 16 * |rsv| + 16 + Room(Flat(t)) + 4 <= fdt.Length
    ensures err == OUTSIDE <==> MapFits(fdt.Length, rsv) && Bursts(fdt.Length, MapOnly(rsv), Flat(t))
    ensures err == 0 ==> Holds(fdt[..], v) && v.rsv == rsv && DecodesTo(v, t)
    ensures err == 0 ==> forall w: View, u: Node | Holds(fdt[..], w) && DecodesTo(w, u) :: w.rsv == rsv && u == t
  {
    hide Drafts, Size, Flat, Holds, TokLen, Room, DraftEvents, DecodesTo, Bursts, Strings;
    v := View([], [], []);
    err := Create(fdt);
    if err != 0 {
      return;
    }
    ghost var d := Draft([], [], []);
    for i := 0 to |rsv|
      invariant Drafts(fdt[..], d) && d == Draft(rsv[..i], [], [])
    {
      err, d := AddReservemapEntry(fdt, rsv[i].address, rsv[i].size, d);
      if err != 0 {
        return;
      }
      assert rsv[..i] + [rsv[i]] == rsv[..i + 1];
      MapRoom(fdt[..], d);
    }
    assert rsv[..|rsv|] == rsv;
    err, d := AddReservemapEntry(fdt, 0, 0, d);
    if err != 0 {
      return;
    }
    MapRoom(fdt[..], d);
    NothingYet(d);
    assert [] + Flat(t) == Flat(t);
    err, d := WriteTree(fdt, t, d);
    if err != 0 {
      return;
    }
    RoomStrings(fdt.Length, MapOnly(rsv), Flat(t));
    FitsNoBurst(fdt.Length, MapOnly(rsv), Flat(t));
    assert d.rsv[..|rsv|] == rsv;
    SizedRoom(d);
    err := Finish(fdt, d);
    v := Finished(d);
    if err == 0 {
      Decoded(v, t);
      forall w: View, u: Node | Holds(fdt[..], w) && DecodesTo(w, u)
        ensures w.rsv == rsv && u == t
      {
        BlobUnique(fdt[..], v, t, w, u);
      }
    }
  }

  lemma SizedRoom(d: Draft)
    requires Sized(d)
    ensures Size(d.toks) + |d.strs| == Room(DraftEvents(d))
  {
  }

  lemma Decoded(v: View, t: Node)
    requires v.Ev() == Flat(t)
    ensures DecodesTo(v, t)
  {
  }

  lemma MapRoom(s: seq<byte>, d: Draft)
    requires d.toks == [] && d.strs == []
    ensures Fits(s, d) <==> StructStart(d) <= |s|
  {
    assert Size([]) == 0;
  }

  lemma NothingYet(d: Draft)
    requires d.toks == [] && d.strs == []
    ensures DraftEvents(d) == [] && Sized(d)
  {
    assert FixAll([], |d.strs|) == [];
  }
}
