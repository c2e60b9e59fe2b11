/** fdt_ro.c: printing a node's path and looking a path up again. */
module FdtPath {
  import opened FdtBytes
  import opened FdtTree
  import opened FdtFormat
  import opened FdtBlob
  import opened FdtScan
  import opened FdtWalk
  import opened FdtLookup
  import opened FdtEdit
  import opened FdtAncestor

  const SLASH: byte := 47

  /** Names from the root down to the node at `p`, both included. */
  function NamesTo(n: Node, p: Path): (r: seq<Name>)
    requires ValidPath(n, p)
    ensures |r| == |p| + 1 && r[|p|] == At(n, p).name
    decreases p
  {
    if p == [] then [n.name] else [n.name] + NamesTo(n.children[p[0]], p[1..])
  }

  lemma {:induction false} NamesPrefix(n: Node, p: Path, i: nat)
    requires ValidPath(n, p) && i <= |p|
    ensures ValidPath(n, p[..i]) && NamesTo(n, p)[..i + 1] == NamesTo(n, p[..i])
    decreases p
  {
    if i == 0 {
      assert p[..0] == [];
    } else {
      NamesPrefix(n.children[p[0]], p[1..], i - 1);
      assert p[..i][1..] == p[1..][..i - 1] && p[..i][0] == p[0];
    }
  }

  /** Every name followed by a slash. */
  function Joined(ns: seq<Name>): (r: seq<byte>)
    ensures ns != [] ==> r != [] && r[|r| - 1] == SLASH
  {
    if ns == [] then [] else Joined(ns[..|ns| - 1]) + ns[|ns| - 1] + [SLASH]
  }

  lemma JoinedSnoc(ns: seq<Name>, n: Name)
    ensures Joined(ns + [n]) == Joined(ns) + n + [SLASH]
  {
    assert (ns + [n])[..|ns|] == ns;
  }

  lemma JoinedStep(ns: seq<Name>, i: nat)
    requires i < |ns|
    ensures Joined(ns[..i + 1]) == Joined(ns[..i]) + ns[i] + [SLASH]
  {
    assert ns[..i + 1] == ns[..i] + [ns[i]];
    JoinedSnoc(ns[..i], ns[i]);
  }

  lemma {:induction false} JoinedGrows(ns: seq<Name>, i: nat)
    requires i <= |ns|
    ensures |Joined(ns[..i])| <= |Joined(ns)|
  {
    if i == |ns| {
      assert ns[..i] == ns;
    } else {
      JoinedGrows(ns[..|ns| - 1], i);
      assert ns[..|ns| - 1][..i] == ns[..i];
    }
  }

  /** What is printed: the names separated by slashes; a lone slash stays. */
  function PathString(n: Node, p: Path): seq<byte>
    requires ValidPath(n, p)
  {
    var j := Joined(NamesTo(n, p));
    if |j| > 1 then j[..|j| - 1] else j
  }

  predicate NoSlash(n: Node) {
    SLASH !in n.name && forall i | 0 <= i < |n.children| :: NoSlash(n.children[i])
  }

  lemma {:induction false} NoSlashAt(n: Node, p: Path)
    requires NoSlash(n) && ValidPath(n, p)
    ensures SLASH !in At(n, p).name
    decreases p
  {
    if p != [] {
      NoSlashAt(n.children[p[0]], p[1..]);
    }
  }

  // ----- fdt_get_path

  ghost predicate NoSlashes(ns: seq<Name>) {
    forall i | 0 <= i < |ns| :: SLASH !in ns[i]
  }

  /** Dropping the last component by backing up to the previous slash. In front of the
      first component there is none: then the scan leaves the buffer. */
  method Pop(buf: array<byte>, p: nat, ghost ns: seq<Name>) returns (r: int, outside: bool)
    requires p <= buf.Length && buf[..p] == Joined(ns) && NoSlashes(ns)
    ensures outside <==> |ns| < 2
    ensures !outside ==> 0 <= r <= p && buf[..r] == Joined(ns[..|ns| - 1])
  {
    ghost var front: seq<byte> := [];
    if ns != [] {
      front := Joined(ns[..|ns| - 1]);
      LastName(buf[..p], ns);
    }
    r := p - 1;
    while true
      invariant r < p && (ns == [] ==> r == -1) && (ns != [] ==> |front| <= r)
      decreases r + 1
    {
      if r < 1 {
        return r, true;
      }
      if buf[r - 1] == SLASH {
        return r, false;
      }
      r := r - 1;
    }
  }

  /** The last slash but one ends the components before the last. */
  lemma LastName(b: seq<byte>, ns: seq<Name>)
    requires ns != [] && b == Joined(ns) && NoSlashes(ns)
    ensures var f := Joined(ns[..|ns| - 1]);
      && |f| < |b| && b[..|f|] == f && (|ns| >= 2 <==> f != []) && (f != [] ==> b[|f| - 1] == SLASH)
      && forall i | |f| <= i < |b| - 1 :: b[i] != SLASH
  {
    var f, last := Joined(ns[..|ns| - 1]), ns[|ns| - 1];
    assert b == f + last + [SLASH];
    forall i | |f| <= i < |b| - 1
      ensures b[i] != SLASH
    {
      assert b[i] == last[i - |f|];
    }
  }

  /** The components of the current node that are in the buffer: as many as fit. */
  ghost predicate Printed(b: seq<byte>, pp: nat, pd: nat, ns: seq<Name>) {
    && pp <= |b| && pd <= |ns| && b[..pp] == Joined(ns[..pd])
    && (pd < |ns| ==> |Joined(ns[..pd + 1])| > |b|)
  }

  /** memcpy of a name and the slash behind it. */
  method AppendName(buf: array<byte>, pp: nat, name: Name) returns (r: nat)
    requires pp + |name| + 1 <= buf.Length
    modifies buf
    ensures r == pp + |name| + 1 && buf[..r] == old(buf[..pp]) + name + [SLASH]
  {
    Memcpy(buf, pp, name);
    buf[pp + |name|] := SLASH;
    r := pp + |name| + 1;
  }

  /** One visit: drop components below the node's depth, then add its own name. Below
      depth 0 the scan for a slash leaves the buffer. */
  method Visit(buf: array<byte>, pp0: nat, pd0: nat, depth: int, name: Name, ghost prev: seq<Name>, ghost ns: seq<Name>)
    returns (pp: nat, pd: nat, outside: bool)
    requires Printed(buf[..], pp0, pd0, prev) && NoSlashes(prev)
    requires depth >= 0 ==>
      && |ns| == depth + 1 && depth <= |prev| && prev[..depth] == ns[..depth]
      && ns[depth] == name && (depth == 0 ==> prev == [])
    modifies buf
    ensures outside <==> depth < 0
    ensures if outside then buf[..] == old(buf[..]) else Printed(buf[..], pp, pd, ns)
  {
    hide Joined;
    pp, pd, outside := pp0, pd0, false;
    while pd > depth
      invariant pd <= pd0 && (pd0 > depth ==> pd >= depth) && (pd0 <= depth ==> pd == pd0)
      invariant pp <= buf.Length && buf[..pp] == Joined(prev[..pd]) && buf[..] == old(buf[..])
      decreases pd
    {
      var r;
      r, outside := Pop(buf, pp, prev[..pd]);
      if outside {
        return;
      }
      assert prev[..pd][..pd - 1] == prev[..pd - 1];
      pp, pd := r, pd - 1;
    }
    SamePrefix(prev, ns, depth, pd);
    if pd >= depth {
      JoinedStep(ns, depth);
      if pp + |name| + 1 <= buf.Length {
        pp := AppendName(buf, pp, name);
        pd := pd + 1;
      }
    } else {
      SamePrefix(prev, ns, depth, pd + 1);
    }
  }

  lemma SamePrefix<T>(a: seq<T>, b: seq<T>, n: nat, i: nat)
    requires i <= n <= |a| && n <= |b| && a[..n] == b[..n]
    ensures a[..i] == b[..i]
  {
    assert a[..i] == a[..n][..i] && b[..i] == b[..n][..i];
  }

  /** The text of a C string in a buffer. */
  ghost predicate HoldsText(b: seq<byte>, text: seq<byte>) {
    |text| < |b| && b[..|text|] == text && b[|text|] == 0
  }

  /** The boundary behind the root's end tag. */
  ghost predicate RootEnd(v: View, k: nat) {
    0 < k <= |v.body| && v.body[k - 1] == EndNode && EvIdx(v, k) == |v.Ev()|
  }

  /** The offset is at or past the end of the root. */
  ghost predicate PastRoot(v: View, off: int) {
    exists k: nat :: RootEnd(v, k) && OffsetOf(v, k) <= off
  }

  /** fdt_get_path, for any offset: the path of the node is written exactly when it
      fits with a trailing slash. For an offset at or past the end of the root the
      source looks for a slash in front of the buffer; should it find enough of them, it
      then fails on the missing node. */
  method GetPath(fdt: array<byte>, nodeoffset: i32, buf: array<byte>,
                 ghost v: View, ghost t: Node, ghost k0: int, ghost p: Path)
    returns (err: int, outside: bool)
    requires fdt != buf && Holds(fdt[..], v) && DecodesTo(v, t) && IsNode(v, 0) && NoSlash(t)
    requires Points(v, nodeoffset, k0) && (IsNode(v, k0) ==> NodeAt(v, t, k0, p))
    modifies buf
    ensures outside <==> buf.Length >= 2 && PastRoot(v, nodeoffset)
    ensures IsNode(v, k0) ==> !outside
    ensures !IsNode(v, k0) ==> err == if buf.Length < 2 then NOSPACE else BADOFFSET
    ensures IsNode(v, k0) ==>
      err == if buf.Length < 2 || |Joined(NamesTo(t, p))| > buf.Length then NOSPACE else 0
    ensures err == 0 ==> HoldsText(buf[..], PathString(t, p))
  {
    hide Holds, Size, Events, Flat, Pre, ScanNode, CloseFrom, At, Stack, Joined, NamesTo, NoSlash, NoSlashes, Printed;
    hide RootEnd, PastRoot, Points, ReadsAs, StructOf, TagFrom;
    if IsNode(v, k0) {
      NodeBefore(v, t, k0, p, nodeoffset);
    }
    if buf.Length < 2 {
      return NOSPACE, false;
    }
    WfOf(fdt[..], v);
    CursorEnds(v);
    RootCloses(v, t);
    ghost var q := RootPath(v, t);
    ghost var prev: seq<Name> := [];
    EmptyPrint(buf[..]);
    var pp: nat, pd: nat, offset, depth := 0, 0, 0, 0;
    ghost var k := 0;
    while offset <= nodeoffset
      invariant Holds(fdt[..], v) && fdt[..] == old(fdt[..])
      invariant 0 <= k <= |v.body| && offset == OffsetOf(v, k)
      invariant depth >= 0 ==>
        && NodeAt(v, t, k, q) && depth == |q| && CloseFrom(v.Ev(), EvIdx(v, k) + 1, depth) == |v.Ev()|
        && Ready(t, prev, q)
      invariant Printed(buf[..], pp, pd, prev) && NoSlashes(prev)
      invariant depth < 0 ==> RootEnd(v, k)
      invariant IsNode(v, k0) ==> k <= k0 && depth >= 0
      decreases |v.body| - k
    {
      var name: Name := [];
      ghost var ns: seq<Name> := [];
      if depth >= 0 {
        name := NameOf(fdt, offset, v, t, k, q);
        ns := NamesTo(t, q);
        ReadyFacts(t, prev, q);
      }
      pp, pd, outside := Visit(buf, pp, pd, depth, name, prev, ns);
      if outside {
        AtRootEnd(v, k, nodeoffset, k0);
        err := CheckNodeOffset(fdt, offset, v, k);
        return;
      }
      if offset == nodeoffset {
        SameToken(v, nodeoffset, k0, k);
        assert q == p by { PreInjective(t, p, q); }
        PrintedAll(buf[..], pp, pd, ns);
        if pd < depth + 1 {
          return NOSPACE, false;
        }
        if pp > 1 {
          pp := pp - 1;
        }
        buf[pp] := 0;
        return 0, false;
      }
      ghost var k', q' := k, q;
      offset, depth, k := NextNode(fdt, offset, depth, v, k);
      q, k := Advance(v, t, k', q', nodeoffset, k0, k, offset, depth);
      prev := ns;
      NoSlashNames(t, q');
      if depth >= 0 {
        FollowsReady(t, q', q);
      }
    }
    SkippedPast(v, nodeoffset, k0, k, offset);
    BeforeRootEnd(v, t, k, q, nodeoffset, depth);
    return BADOFFSET, false;
  }

  method NameOf(fdt: array<byte>, offset: int, ghost v: View, ghost t: Node, ghost k: nat, ghost q: Path)
    returns (name: Name)
    requires Holds(fdt[..], v) && DecodesTo(v, t) && NodeAt(v, t, k, q) && offset == OffsetOf(v, k)
    ensures name == At(t, q).name
  {
    hide Holds, Size, Events, Flat, Pre, At;
    NodeName(fdt[..], v, t, k, q);
    var h := GetHeader(fdt);
    var z := h.offStruct + offset + 4;
    var namelen := Strlen(fdt, z, v.body[k].name);
    name := fdt[z..z + namelen];
    assert name == fdt[..][z..z + namelen];
  }

  /** The offset of the final tag is past the root in every blob, so there fdt_get_path
      always leaves the buffer. */
  lemma EndTagPast(v: View, t: Node)
    requires WfView(v) && DecodesTo(v, t)
    ensures PastRoot(v, OffsetOf(v, |v.body|))
  {
    CursorEnds(v);
    var k := FindRootEnd(v, t, |v.body|);
    SizeMonotone(v.Toks(), k, |v.body|);
  }

  lemma {:induction false} FindRootEnd(v: View, t: Node, n: nat) returns (k: nat)
    requires WfView(v) && DecodesTo(v, t) && n <= |v.body| && EvIdx(v, n) == |v.Ev()|
    ensures k <= n && RootEnd(v, k)
    decreases n
  {
    hide Events;
    CursorEnds(v);
    assert |Flat(t)| >= 2 && Flat(t)[|Flat(t)| - 1] == EEnd;
    Cursor(v, n - 1);
    if v.body[n - 1].Nop? {
      k := FindRootEnd(v, t, n - 1);
    } else {
      k := n;
    }
  }

  /** A node lies before the root's end. */
  lemma NodeBefore(v: View, t: Node, k: nat, q: Path, off: int)
    requires DecodesTo(v, t) && NodeAt(v, t, k, q) && (off <= OffsetOf(v, k) || Points(v, off, k))
    ensures EvIdx(v, k) < |v.Ev()| && !PastRoot(v, off)
  {
    hide Size, Events, Pre, At;
    NodeOccurs(v, t, k, q);
    NodeParts(v.Ev(), EvIdx(v, k), At(t, q));
    forall e: nat | RootEnd(v, e)
      ensures OffsetOf(v, e) > off
    {
      LandsLater(v, k, e);
      SizeMonotone(v.Toks(), k, e);
    }
  }

  lemma AtRootEnd(v: View, k: nat, off: int, k0: int)
    requires WfView(v) && RootEnd(v, k) && OffsetOf(v, k) <= off && Points(v, off, k0) && (IsNode(v, k0) ==> k <= k0)
    ensures PastRoot(v, off) && !IsNode(v, k) && !IsNode(v, k0) && Names(v, OffsetOf(v, k), k)
  {
    hide Size, Events;
    if k < |v.body| {
      Cursor(v, k);
    }
    if IsNode(v, k0) {
      Cursor(v, k0);
      EvIdxMonotone(v, k, k0);
    }
  }

  /** The walk passes the offset before it leaves the root. */
  lemma BeforeRootEnd(v: View, t: Node, k: nat, q: Path, off: int, depth: int)
    requires WfView(v) && DecodesTo(v, t) && k <= |v.body| && OffsetOf(v, k) > off
    requires if depth >= 0 then NodeAt(v, t, k, q) else RootEnd(v, k)
    ensures !PastRoot(v, off)
  {
    hide Size, Events, Pre, At;
    if depth >= 0 {
      NodeBefore(v, t, k, q, off);
    } else {
      forall e: nat | RootEnd(v, e)
        ensures e == k
      {
        Cursor(v, e - 1);
        Cursor(v, k - 1);
        EvIdxUnique(v, e - 1, k - 1);
      }
    }
  }

  lemma NoSlashNames(t: Node, q: Path)
    requires ValidPath(t, q) && NoSlash(t)
    ensures NoSlashes(NamesTo(t, q))
  {
    hide NamesTo;
    forall j | 0 <= j < |NamesTo(t, q)|
      ensures SLASH !in NamesTo(t, q)[j]
    {
      NamesPrefix(t, q, j);
      NoSlashAt(t, q[..j]);
      assert NamesTo(t, q)[..j + 1][j] == NamesTo(t, q[..j])[j];
    }
  }

  /** Where a step of the preorder walk leads. */
  lemma Advance(v: View, t: Node, k: nat, q: Path, off: int, k0: int, k1: int, r: int, d: int)
    returns (q': Path, k': nat)
    requires WfView(v) && DecodesTo(v, t) && NodeAt(v, t, k, q) && Points(v, off, k0)
    requires CloseFrom(v.Ev(), EvIdx(v, k) + 1, |q|) == |v.Ev()|
    requires Lands(v, ScanNode(v.Ev(), EvIdx(v, k) + 1, |q|), r, d, k1)
    requires OffsetOf(v, k) < off
    ensures k < k' <= |v.body| && r == OffsetOf(v, k')
    ensures d >= 0 ==> NodeAt(v, t, k', q') && d == |q'| && Follows(q, q')
    ensures d >= 0 ==> CloseFrom(v.Ev(), EvIdx(v, k') + 1, d) == |v.Ev()|
    ensures d < 0 ==> RootEnd(v, k')
    ensures IsNode(v, k0) ==> d >= 0 && k' <= k0
  {
    hide Size, Events, Flat, Pre, ScanNode, CloseFrom, At, Stack;
    var scan := ScanNode(v.Ev(), EvIdx(v, k) + 1, |q|);
    ScanSteps(v.Ev(), EvIdx(v, k) + 1, |q|, []);
    q', k' := q, k1;
    LandsLater(v, k, k');
    if scan.Found? {
      q' := NextPath(v, t, k, q, k', d);
    }
    if IsNode(v, k0) {
      Increasing(v, k, k0);
      StepPast(v, k, |q|, k0, k1, r, d);
    }
  }

  lemma EmptyPrint(b: seq<byte>)
    ensures Printed(b, 0, 0, []) && NoSlashes([])
  {
    assert b[..0] == [];
  }

  lemma NodeName(s: seq<byte>, v: View, t: Node, k: nat, q: Path)
    requires Holds(s, v) && DecodesTo(v, t) && NodeAt(v, t, k, q)
    ensures HEADER <= |s| && IsStr(s, Hdr(s).offStruct + OffsetOf(v, k) + 4, v.body[k].name)
    ensures v.body[k].name == At(t, q).name
  {
    hide Holds, Hdr, Size, Events, Pre, IsStr;
    WfOf(s, v);
    NodeBytes(s, v, k);
    NodeOccurs(v, t, k, q);
    NodeParts(v.Ev(), EvIdx(v, k), At(t, q));
    Cursor(v, k);
  }

  /** What was printed for the previous node serves the next one. */
  ghost predicate Ready(t: Node, prev: seq<Name>, q: Path)
    requires ValidPath(t, q)
  {
    |q| <= |prev| && prev[..|q|] == NamesTo(t, q)[..|q|] && (q == [] ==> prev == [])
  }

  lemma ReadyFacts(t: Node, prev: seq<Name>, q: Path)
    requires ValidPath(t, q) && Ready(t, prev, q)
    ensures |NamesTo(t, q)| == |q| + 1 && NamesTo(t, q)[|q|] == At(t, q).name
  {
  }

  lemma FollowsReady(t: Node, q: Path, q': Path)
    requires ValidPath(t, q) && ValidPath(t, q') && Follows(q, q')
    ensures Ready(t, NamesTo(t, q), q')
  {
    hide NamesTo;
    var i := |q'| - 1;
    NamesPrefix(t, q, i);
    NamesPrefix(t, q', i);
  }

  lemma PrintedAll(b: seq<byte>, pp: nat, pd: nat, ns: seq<Name>)
    requires Printed(b, pp, pd, ns) && ns != []
    ensures pd < |ns| <==> |Joined(ns)| > |b|
    ensures pd == |ns| ==> pp == |Joined(ns)| && pp >= 1 && pp <= |b| && b[..pp] == Joined(ns)
    ensures pd <= |ns|
  {
    hide Joined;
    if pd < |ns| {
      JoinedGrows(ns, pd + 1);
    } else {
      assert ns[..pd] == ns;
    }
    NonEmptyJoin(ns);
  }

  lemma NonEmptyJoin(ns: seq<Name>)
    requires ns != []
    ensures |Joined(ns)| >= 1
  {
  }
}
