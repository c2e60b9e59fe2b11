/** fdt.c and the walkers of fdt_wip.c and fdt_ro.c that step through the
    structure block: each is proved against a scan of the event stream. */
module FdtWalk {
  import opened FdtBytes
  import opened FdtTree
  import opened FdtFormat
  import opened FdtBlob
  import opened FdtScan

  /** Offset in the structure block of token `k`. */
  ghost function OffsetOf(v: View, k: nat): nat
    requires k <= |v.Toks()|
  {
    Size(v.Toks()[..k])
  }

  /** Number of events before token `k`. */
  ghost function EvIdx(v: View, k: nat): nat
    requires k <= |v.body|
  {
    |Events(v.body[..k], v.strs)|
  }

  /** The offsets a caller may pass: the boundary before token `k`, or, for
      `k == -1`, any value that the source rejects on sight. What is left out is a
      place inside a token that happens to read as a tag. */
  ghost predicate Names(v: View, off: int, k: int) {
    if k == -1 then off < 0 || off % 4 != 0 || off > Size(v.Toks())
    else 0 <= k <= |v.body| + 1 && off == OffsetOf(v, k)
  }

  ghost predicate IsNode(v: View, k: int) {
    0 <= k < |v.body| && v.body[k].Begin?
  }

  /** Any offset: that of node token `k`, or, for `k == -1`, of no node. */
  ghost predicate Points(v: View, off: int, k: int) {
    if k == -1 then forall j: nat | IsNode(v, j) :: OffsetOf(v, j) != off
    else IsNode(v, k) && off == OffsetOf(v, k)
  }

  /** Token `k` begins the node of `t` at path `p`. */
  ghost predicate NodeAt(v: View, t: Node, k: int, p: Path) {
    IsNode(v, k) && ValidPath(t, p) && EvIdx(v, k) == |Pre(t, p)|
  }

  ghost function StructOf(s: seq<byte>): seq<byte>
    requires HEADER <= |s| && Hdr(s).offStruct + Hdr(s).sizeStruct <= |s|
  {
    Block(s, Hdr(s).offStruct, Hdr(s).sizeStruct)
  }

  // ----- Moving the two cursors together

  lemma Cursor(v: View, k: nat)
    requires End !in v.body && k < |v.body|
    ensures EvIdx(v, k + 1) == EvIdx(v, k) + if v.body[k].Nop? then 0 else 1
    ensures EvIdx(v, k + 1) <= |v.Ev()|
    ensures !v.body[k].Nop? ==> [v.Ev()[EvIdx(v, k)]] == EventOf(v.body[k], v.strs)
  {
    EventsStep(v.body, k, v.strs);
    assert v.body[k] != End;
  }

  lemma CursorEnds(v: View)
    ensures EvIdx(v, |v.body|) == |v.Ev()|
    ensures EvIdx(v, 0) == 0 && OffsetOf(v, 0) == 0
  {
    assert v.body[..|v.body|] == v.body;
  }

  lemma TokIs(v: View, k: nat)
    requires k <= |v.body|
    ensures v.Toks()[k] == if k < |v.body| then v.body[k] else End
    ensures v.Toks()[..k] == v.body[..k]
    ensures |v.Toks()| == |v.body| + 1
  {
  }

  lemma OffsetInjective(v: View, j: nat, k: nat)
    requires j <= |v.Toks()| && k <= |v.Toks()| && OffsetOf(v, j) == OffsetOf(v, k)
    ensures j == k
  {
    if j < k {
      SizeMonotone(v.Toks(), j, k);
    } else {
      SizeMonotone(v.Toks(), k, j);
    }
  }

  lemma EvIdxMonotone(v: View, j: nat, k: nat)
    requires j <= k <= |v.body|
    ensures EvIdx(v, j) <= EvIdx(v, k) <= |v.Ev()|
  {
    assert v.body[..k] == v.body[..j] + v.body[j..k];
    EventsConcat(v.body[..j], v.body[j..k], v.strs);
    assert v.body == v.body[..k] + v.body[k..];
    EventsConcat(v.body[..k], v.body[k..], v.strs);
  }

  /** Two tokens that carry an event and have the same event index are the same. */
  lemma EvIdxUnique(v: View, j: nat, k: nat)
    requires End !in v.body && j < |v.body| && k < |v.body|
    requires !v.body[j].Nop? && !v.body[k].Nop? && EvIdx(v, j) == EvIdx(v, k)
    ensures j == k
  {
    Cursor(v, j);
    Cursor(v, k);
    if j < k {
      EvIdxMonotone(v, j + 1, k);
    } else if k < j {
      EvIdxMonotone(v, k + 1, j);
    }
  }

  lemma LandsLater(v: View, j: nat, k: nat)
    requires j <= |v.body| && k <= |v.body| && EvIdx(v, j) < EvIdx(v, k)
    ensures j < k
  {
    if k <= j {
      EvIdxMonotone(v, k, j);
    }
  }

  /** Every node token is one node of the tree, and only one. */
  lemma NodePath(v: View, t: Node, k: int) returns (p: Path)
    requires WfView(v) && DecodesTo(v, t) && IsNode(v, k)
    ensures NodeAt(v, t, k, p)
    ensures forall q | NodeAt(v, t, k, q) :: q == p
  {
    Cursor(v, k);
    p := Locate(t, EvIdx(v, k));
    forall q | NodeAt(v, t, k, q)
      ensures q == p
    {
      PreInjective(t, p, q);
    }
  }

  /** The stream at a node's begin event is that node flattened. */
  lemma NodeOccurs(v: View, t: Node, k: int, p: Path)
    requires DecodesTo(v, t) && NodeAt(v, t, k, p)
    ensures Occurs(v.Ev(), EvIdx(v, k), Flat(At(t, p)))
  {
    FlatAt(t, p);
  }

  // ----- fdt_next_tag on a complete blob

  method NextTag(fdt: array<byte>, start: i32, ghost v: View) returns (tag: int, next: int)
    requires Holds(fdt[..], v)
    ensures (tag, next) == TagFrom(StructOf(fdt[..]), start)
  {
    hide Word, TagFrom;
    var base := LoadWord(fdt, OFF_STRUCT);
    var size := LoadWord(fdt, SIZE_STRUCT);
    tag, next := NextTagIn(fdt, base, size, start);
    assert fdt[base..base + size] == StructOf(fdt[..]);
  }

  lemma StructFacts(s: seq<byte>, v: View)
    requires Holds(s, v)
    ensures HEADER <= |s| < TWO31
    ensures Hdr(s).offStruct + Size(v.Toks()) <= Hdr(s).offStrings <= |s|
    ensures Hdr(s).sizeStruct == Size(v.Toks()) && Encodes(StructOf(s), v.Toks())
  {
  }

  lemma TagAt(s: seq<byte>, v: View, k: nat)
    requires Holds(s, v) && k < |v.Toks()|
    ensures TagFrom(StructOf(s), OffsetOf(v, k)) == (TagOf(v.Toks()[k]), OffsetOf(v, k + 1))
    ensures OffsetOf(v, k + 1) == OffsetOf(v, k) + TokLen(v.Toks()[k]) <= Size(v.Toks()) < TWO31
    ensures OffsetOf(v, k) % 4 == 0
  {
    hide Holds, Word, TagFrom, Encodes, Size, TokLen;
    StructFacts(s, v);
    TagAtToken(StructOf(s), v.Toks(), k);
    SizeStep(v.Toks(), k);
    SizeAligned(v.Toks()[..k]);
  }

  lemma TagAtBad(s: seq<byte>, v: View, off: int, k: int)
    requires Holds(s, v) && Names(v, off, k) && (k == -1 || k == |v.body| + 1) && 0 <= off && off % 4 == 0
    ensures TagFrom(StructOf(s), off).0 == FDT_END
  {
    hide Word, NulFrom;
    assert v.Toks()[..|v.body| + 1] == v.Toks();
    assert |StructOf(s)| == Size(v.Toks());
  }

  lemma WfOf(s: seq<byte>, v: View)
    requires Holds(s, v)
    ensures WfView(v) && HEADER <= |s| < TWO31
  {
  }

  /** Whether the bytes at any offset read as a tag of the given kind. */
  ghost predicate ReadsAs(s: seq<byte>, off: int, tag: int)
    requires HEADER <= |s| && Hdr(s).offStruct + Hdr(s).sizeStruct <= |s|
  {
    off >= 0 && off % 4 == 0 && TagFrom(StructOf(s), off).0 == tag
  }

  /** The reader never leaves a block of whole words. */
  lemma TagRange(b: seq<byte>, start: int)
    requires |b| % 4 == 0
    ensures -13 <= TagFrom(b, start).1 <= |b|
  {
    hide Word;
  }

  lemma NextRange(s: seq<byte>, v: View, off: int)
    requires Holds(s, v)
    ensures -13 <= TagFrom(StructOf(s), off).1 < TWO31
  {
    hide TagFrom, Encodes;
    SizeAligned(v.Toks());
    TagRange(StructOf(s), off);
  }

  /** Where a token starts, it is what is read there. */
  lemma ReadsToken(s: seq<byte>, v: View, off: int, k: int)
    requires Holds(s, v) && Names(v, off, k)
    ensures HEADER <= |s| && Hdr(s).offStruct + Hdr(s).sizeStruct <= |s|
    ensures ReadsAs(s, off, FDT_BEGIN_NODE) <==> IsNode(v, k)
    ensures ReadsAs(s, off, FDT_PROP) <==> 0 <= k < |v.body| && v.body[k].Prop?
    ensures 0 <= k < |v.body| ==> TagFrom(StructOf(s), off).1 == OffsetOf(v, k + 1)
  {
    hide TagFrom, Size, Word;
    StructFacts(s, v);
    hide Holds;
    if 0 <= k <= |v.body| {
      TagAt(s, v, k);
      TokIs(v, k);
    } else if off >= 0 && off % 4 == 0 {
      TagAtBad(s, v, off, k);
    }
  }

  /** _fdt_check_node_offset, for any offset: the offset after the node header, or
      -BADOFFSET. */
  method CheckNodeOffset(fdt: array<byte>, offset: i32, ghost v: View, ghost k: int) returns (r: i32)
    requires Holds(fdt[..], v)
    ensures r == if ReadsAs(fdt[..], offset, FDT_BEGIN_NODE) then TagFrom(StructOf(fdt[..]), offset).1 else BADOFFSET
    ensures Names(v, offset, k) ==> r == if IsNode(v, k) then OffsetOf(v, k + 1) else BADOFFSET
  {
    hide TagFrom, Size, Word;
    StructFacts(fdt[..], v);
    hide Holds;
    NextRange(fdt[..], v, offset);
    if Names(v, offset, k) {
      ReadsToken(fdt[..], v, offset, k);
    }
    if offset < 0 || offset % 4 != 0 {
      return BADOFFSET;
    }
    var tag, next := NextTag(fdt, offset, v);
    if tag != FDT_BEGIN_NODE {
      return BADOFFSET;
    }
    r := next;
  }

  /** _fdt_check_prop_offset, for any offset. */
  method CheckPropOffset(fdt: array<byte>, offset: i32, ghost v: View, ghost k: int) returns (r: i32)
    requires Holds(fdt[..], v)
    ensures r == if ReadsAs(fdt[..], offset, FDT_PROP) then TagFrom(StructOf(fdt[..]), offset).1 else BADOFFSET
    ensures Names(v, offset, k) ==>
      r == if 0 <= k < |v.body| && v.body[k].Prop? then OffsetOf(v, k + 1) else BADOFFSET
  {
    hide TagFrom, Size, Word;
    StructFacts(fdt[..], v);
    hide Holds;
    NextRange(fdt[..], v, offset);
    if Names(v, offset, k) {
      ReadsToken(fdt[..], v, offset, k);
    }
    if offset < 0 || offset % 4 != 0 {
      return BADOFFSET;
    }
    var tag, next := NextTag(fdt, offset, v);
    if tag != FDT_PROP {
      return BADOFFSET;
    }
    r := next;
  }

  /** What fdt_next_node reports for each outcome of the scan. */
  ghost predicate Lands(v: View, scan: Scan, r: int, d: int, k: int) {
    match scan
    case Found(e, d') => IsNode(v, k) && r == OffsetOf(v, k) && EvIdx(v, k) == e && d == d'
    case Closed(e) =>
      0 < k <= |v.body| && r == OffsetOf(v, k) && EvIdx(v, k) == e && d < 0 && v.body[k - 1] == EndNode
    case Exhausted => r == NOTFOUND
  }

  /** fdt_next_node with a depth counter. A negative offset starts at the first token;
      any other one has to read as a node. */
  method NextNode(fdt: array<byte>, offset: i32, depth: int, ghost v: View, ghost k0: int)
    returns (r: int, d: int, ghost k: int)
    requires Holds(fdt[..], v)
    requires offset >= 0 && !Names(v, offset, k0) ==> !ReadsAs(fdt[..], offset, FDT_BEGIN_NODE)
    ensures -TWO31 <= r < TWO31
    ensures offset < 0 ==> Lands(v, ScanNode(v.Ev(), 0, depth), r, d, k)
    ensures offset >= 0 && (!Names(v, offset, k0) || !IsNode(v, k0)) ==> r == BADOFFSET && d == depth
    ensures offset >= 0 && Names(v, offset, k0) && IsNode(v, k0) ==>
      Lands(v, ScanNode(v.Ev(), EvIdx(v, k0) + 1, depth), r, d, k)
  {
    hide Holds, ReadsAs, StructOf, TagFrom, Size, Events, ScanNode;
    var next := 0;
    k := 0;
    CursorEnds(v);
    if offset >= 0 {
      next := CheckNodeOffset(fdt, offset, v, k0);
      if next < 0 {
        return next, depth, 0;
      }
      WfOf(fdt[..], v);
      k := k0 + 1;
      Cursor(v, k0);
    }
    r, d, k := NodeFrom(fdt, next, depth, v, k);
  }

  /** The loop of fdt_next_node, from token `k0` on. */
  method NodeFrom(fdt: array<byte>, start: int, depth: int, ghost v: View, ghost k0: nat)
    returns (r: int, d: int, ghost k: int)
    requires Holds(fdt[..], v) && k0 <= |v.body| && start == OffsetOf(v, k0)
    ensures -TWO31 <= r < TWO31 && Lands(v, ScanNode(v.Ev(), EvIdx(v, k0), depth), r, d, k)
  {
    hide Holds, TagFrom, Word, Size, Events;
    WfOf(fdt[..], v);
    var next := start;
    d := depth;
    k := k0;
    ghost var goal := ScanNode(v.Ev(), EvIdx(v, k0), depth);
    var tag;
    while true
      invariant 0 <= k <= |v.body| && next == OffsetOf(v, k)
      invariant goal == ScanNode(v.Ev(), EvIdx(v, k), d)
      decreases |v.body| - k
    {
      TagAt(fdt[..], v, k);
      TokIs(v, k);
      r := next;
      tag, next := NextTag(fdt, r, v);
      if tag == FDT_END {
        CursorEnds(v);
        if next >= 0 {
          return NOTFOUND, d, k;
        }
        return next, d, k;
      }
      Cursor(v, k);
      if tag == FDT_BEGIN_NODE {
        d := d + 1;
        return r, d, k;
      } else if tag == FDT_END_NODE {
        d := d - 1;
        if d < 0 {
          return next, d, k + 1;
        }
      }
      k := k + 1;
    }
  }

  /** _fdt_node_end_offset: the offset just after the node's matching end tag. */
  method NodeEndOffset(fdt: array<byte>, nodeoffset: i32, ghost v: View, ghost t: Node, ghost k0: int, ghost p: Path)
    returns (r: int, ghost k: int)
    requires Holds(fdt[..], v) && DecodesTo(v, t) && Names(v, nodeoffset, k0)
    requires IsNode(v, k0) ==> NodeAt(v, t, k0, p)
    ensures !IsNode(v, k0) ==> r < 0
    ensures IsNode(v, k0) ==>
      && k0 < k <= |v.body| && r == OffsetOf(v, k) && v.body[k - 1] == EndNode
      && EvIdx(v, k) == EvIdx(v, k0) + |Flat(At(t, p))|
  {
    hide Holds, Size, Events, Flat, ScanNode, CloseFrom, Pre, At;
    WfOf(fdt[..], v);
    var depth := 0;
    var offset: i32 := nodeoffset;
    k := k0;
    ghost var valid, goal := IsNode(v, k0), 0;
    if valid {
      NodeOccurs(v, t, k0, p);
      goal := EvIdx(v, k0) + |Flat(At(t, p))|;
      CloseAtEnd(v.Ev(), EvIdx(v, k0), At(t, p));
    }
    while offset >= 0 && depth >= 0
      invariant !valid ==> depth == 0 && k == k0 && (offset == nodeoffset || offset == BADOFFSET)
      invariant valid ==> k0 <= k <= |v.body| && offset == OffsetOf(v, k)
      invariant valid && depth >= 0 ==> IsNode(v, k) && CloseFrom(v.Ev(), EvIdx(v, k) + 1, depth) == goal
      invariant valid && depth < 0 ==> EvIdx(v, k) == goal && k0 < k && v.body[k - 1] == EndNode
      decreases |v.body| - k, if offset >= 0 && depth >= 0 then 1 else 0
    {
      ghost var k', d' := k, depth;
      offset, depth, k := NextNode(fdt, offset, depth, v, k);
      if valid {
        ScanSteps(v.Ev(), EvIdx(v, k') + 1, d', []);
        LandsLater(v, k', k);
      } else {
        k := k0;
      }
    }
    r := offset;
  }
}
