/** fdt_ro.c: fdt_supernode_atdepth_offset, fdt_node_depth and fdt_parent_offset,
    which find ancestors by a preorder walk that only counts depth. */
module FdtAncestor {
  import opened FdtBytes
  import opened FdtTree
  import opened FdtFormat
  import opened FdtBlob
  import opened FdtScan
  import opened FdtWalk

  /** Event indices of the begin events still open after `ev`. */
  function Stack(ev: seq<Event>): seq<nat> {
    if ev == [] then []
    else
      var s := Stack(ev[..|ev| - 1]);
      match ev[|ev| - 1]
      case EBegin(_) => s + [|ev| - 1]
      case EProp(_, _) => s
      case EEnd => if s == [] then [] else s[..|s| - 1]
  }

  lemma StackSnoc(ev: seq<Event>, a: Event)
    ensures Stack(ev + [a]) == match a
      case EBegin(_) => Stack(ev) + [|ev|]
      case EProp(_, _) => Stack(ev)
      case EEnd => if Stack(ev) == [] then [] else Stack(ev)[..|Stack(ev)| - 1]
  {
    assert (ev + [a])[..|ev|] == ev;
  }

  lemma {:induction false} StackProps(x: seq<Event>, ps: seq<Property>)
    ensures Stack(x + PropEvents(ps)) == Stack(x)
  {
    if ps == [] {
      assert x + PropEvents(ps) == x;
    } else {
      var n := |ps| - 1;
      StackProps(x, ps[..n]);
      StackSnoc(x + PropEvents(ps[..n]), EProp(ps[n].name, ps[n].value));
      assert x + PropEvents(ps[..n]) + [EProp(ps[n].name, ps[n].value)] == x + PropEvents(ps);
    }
  }

  /** A whole node leaves the stack as it was. */
  lemma {:induction false} StackNode(x: seq<Event>, n: Node)
    ensures Stack(x + Flat(n)) == Stack(x)
    decreases n, 1
  {
    hide Stack;
    var a := x + [EBegin(n.name)];
    var b := a + PropEvents(n.props);
    var c := b + FlatAll(n.children);
    StackSnoc(x, EBegin(n.name));
    StackProps(a, n.props);
    StackNodes(b, n.children);
    StackSnoc(c, EEnd);
    assert x + Flat(n) == c + [EEnd];
  }

  lemma {:induction false} StackNodes(x: seq<Event>, ns: seq<Node>)
    ensures Stack(x + FlatAll(ns)) == Stack(x)
    decreases ns, 0
  {
    hide Stack, Flat;
    if ns == [] {
      assert x + FlatAll(ns) == x;
    } else {
      StackNode(x, ns[0]);
      StackNodes(x + Flat(ns[0]), ns[1..]);
      assert x + Flat(ns[0]) + FlatAll(ns[1..]) == x + FlatAll(ns);
    }
  }

  /** Before the node at `p`, exactly its proper ancestors are open. */
  lemma {:induction false} StackPre(x: seq<Event>, n: Node, p: Path, i: nat)
    requires ValidPath(n, p) && i < |p|
    ensures |Stack(x + Pre(n, p))| == |Stack(x)| + |p|
    ensures ValidPath(n, p[..i]) && Stack(x + Pre(n, p))[|Stack(x)| + i] == |x| + |Pre(n, p[..i])|
    ensures Stack(x + Pre(n, p))[..|Stack(x)|] == Stack(x)
    decreases p
  {
    hide Stack, Flat, FlatAll;
    var c := n.children[p[0]];
    var a := x + [EBegin(n.name)];
    var b := a + PropEvents(n.props);
    var y := b + FlatAll(n.children[..p[0]]);
    StackSnoc(x, EBegin(n.name));
    StackProps(a, n.props);
    StackNodes(b, n.children[..p[0]]);
    assert x + Pre(n, p) == y + Pre(c, p[1..]);
    assert Stack(y) == Stack(x) + [|x|];
    if |p| == 1 {
      assert p[1..] == [] && Pre(c, []) == [] && y + [] == y && p[..0] == [];
    } else {
      StackPre(y, c, p[1..], if i == 0 then 0 else i - 1);
      if i == 0 {
        assert p[..0] == [] && Stack(x + Pre(n, p))[..|Stack(x)| + 1] == Stack(y);
      } else {
        assert p[..i][1..] == p[1..][..i - 1] && p[..i][0] == p[0];
      }
      var s := Stack(x + Pre(n, p));
      assert s[..|Stack(x)|] == s[..|Stack(x)| + 1][..|Stack(x)|];
    }
  }

  /** fdt_next_node's depth is the height of the stack, and the node it finds has
      the open nodes as its ancestors. */
  lemma {:induction false} ScanStack(ev: seq<Event>, a: nat, d: nat)
    requires a <= |ev| && d + 1 == |Stack(ev[..a])|
    ensures match ScanNode(ev, a, d)
      case Found(e, d') => a <= e < |ev| && 0 < d' <= d + 1 && Stack(ev[..e]) == Stack(ev[..a])[..d']
      case _ => true
    decreases |ev| - a
  {
    hide Stack;
    if a < |ev| {
      StackSnoc(ev[..a], ev[a]);
      assert ev[..a] + [ev[a]] == ev[..a + 1];
      match ev[a]
      case EBegin(_) => assert Stack(ev[..a])[..d + 1] == Stack(ev[..a]);
      case EProp(_, _) => ScanStack(ev, a + 1, d);
      case EEnd =>
        if d >= 1 {
          ScanStack(ev, a + 1, d - 1);
          var s := Stack(ev[..a]);
          assert forall j | 0 <= j <= d :: s[..d][..j] == s[..j];
        }
    }
  }

  /** The node found after the node at `q` shares with it all but its last step. */
  ghost predicate Follows(q: Path, q': Path) {
    0 < |q'| <= |q| + 1 && q'[..|q'| - 1] == q[..|q'| - 1]
  }

  lemma NextPath(v: View, t: Node, k: nat, q: Path, k': nat, d': int) returns (q': Path)
    requires WfView(v) && DecodesTo(v, t) && NodeAt(v, t, k, q) && IsNode(v, k')
    requires ScanNode(v.Ev(), EvIdx(v, k) + 1, |q|) == Found(EvIdx(v, k'), d')
    ensures NodeAt(v, t, k', q') && |q'| == d' && Follows(q, q')
  {
    hide Stack, Flat, ScanNode, Events, Pre, At;
    q' := NodePath(v, t, k');
    var ev, e, e' := v.Ev(), EvIdx(v, k), EvIdx(v, k');
    PrefixIs(v, t, k, q);
    PrefixIs(v, t, k', q');
    StackDepth(t, q);
    StackDepth(t, q');
    Cursor(v, k);
    StackSnoc(ev[..e], ev[e]);
    assert ev[..e] + [ev[e]] == ev[..e + 1];
    ScanStack(ev, e + 1, |q|);
    SharedPrefix(t, q, q', |q'| - 1);
  }

  lemma PrefixIs(v: View, t: Node, k: nat, q: Path)
    requires WfView(v) && DecodesTo(v, t) && NodeAt(v, t, k, q)
    ensures EvIdx(v, k) <= |v.Ev()| && v.Ev()[..EvIdx(v, k)] == Pre(t, q)
  {
    hide Flat, Events;
    FlatAt(t, q);
  }

  lemma SharedPrefix(t: Node, q: Path, q': Path, i: nat)
    requires ValidPath(t, q) && ValidPath(t, q') && i < |q'| <= |q| + 1 && |Stack(Pre(t, q))| == |q|
    requires Stack(Pre(t, q')) == (Stack(Pre(t, q)) + [|Pre(t, q)|])[..|q'|]
    ensures q'[..i] == q[..i]
  {
    hide Stack, Pre;
    StackAt(t, q', i);
    if i < |q| {
      StackAt(t, q, i);
    } else {
      assert q[..i] == q;
    }
    PreInjective(t, q'[..i], q[..i]);
  }

  lemma StackDepth(t: Node, p: Path)
    requires ValidPath(t, p)
    ensures |Stack(Pre(t, p))| == |p|
  {
    if p != [] {
      StackAt(t, p, 0);
    }
  }

  lemma StackAt(t: Node, p: Path, i: nat)
    requires ValidPath(t, p) && i < |p|
    ensures |Stack(Pre(t, p))| == |p| && ValidPath(t, p[..i]) && Stack(Pre(t, p))[i] == |Pre(t, p[..i])|
  {
    assert [] + Pre(t, p) == Pre(t, p);
    StackPre([], t, p, i);
  }

  // ----- The walk

  /** fdt_supernode_atdepth_offset: the ancestor at the given depth, and the
      node's own depth. */
  method SupernodeAtDepth(fdt: array<byte>, nodeoffset: i32, sd: int,
                          ghost v: View, ghost t: Node, ghost k0: int, ghost p: Path)
    returns (r: int, nodedepth: int, ghost m: int)
    requires Holds(fdt[..], v) && DecodesTo(v, t) && Points(v, nodeoffset, k0) && IsNode(v, 0)
    requires IsNode(v, k0) ==> NodeAt(v, t, k0, p)
    ensures sd < 0 ==> r == NOTFOUND
    ensures !IsNode(v, k0) ==> r < 0
    ensures IsNode(v, k0) && sd >= 0 ==>
      && nodedepth == |p|
      && if sd > |p| then r == NOTFOUND else NodeAt(v, t, m, p[..sd]) && r == OffsetOf(v, m)
  {
    hide Holds, Size, Events, Flat, Pre, ScanNode, CloseFrom, At, Stack;
    nodedepth, m := 0, 0;
    if sd < 0 {
      return NOTFOUND, 0, 0;
    }
    WfOf(fdt[..], v);
    CursorEnds(v);
    ghost var q := RootPath(v, t);
    RootCloses(v, t);
    var super, offset, depth := INTERNAL, 0, 0;
    ghost var k := 0;
    while offset >= 0 && offset <= nodeoffset
      invariant offset >= 0 ==> 0 <= k <= |v.body| && offset == OffsetOf(v, k)
      invariant depth >= 0 && offset >= 0 ==> NodeAt(v, t, k, q) && depth == |q|
      invariant depth >= 0 && offset >= 0 && depth > sd ==> NodeAt(v, t, m, q[..sd]) && super == OffsetOf(v, m)
      invariant depth >= 0 && offset >= 0 ==> CloseFrom(v.Ev(), EvIdx(v, k) + 1, depth) == |v.Ev()|
      invariant depth < 0 && offset >= 0 ==> !IsNode(v, k)
      invariant IsNode(v, k0) ==> offset >= 0 && k <= k0 && depth >= 0
      invariant 0 <= k <= |v.body|
      decreases |v.body| - k, if offset >= 0 then 1 else 0
    {
      if depth == sd {
        super, m := offset, k;
        assert q[..sd] == q;
      }
      if offset == nodeoffset {
        if IsNode(v, k0) {
          OffsetInjective(v, k0, k);
          assert q == p by { PreInjective(t, p, q); }
        }
        return if sd > depth then NOTFOUND else super, depth, m;
      }
      ghost var k', q', d' := k, q, depth;
      offset, depth, k := NextNode(fdt, offset, depth, v, k);
      if d' >= 0 {
        ghost var scan := ScanNode(v.Ev(), EvIdx(v, k') + 1, d');
        ScanSteps(v.Ev(), EvIdx(v, k') + 1, d', []);
        if scan.Found? {
          LandsLater(v, k', k);
          q := NextPath(v, t, k', q', k, depth);
          if depth > sd {
            FollowsPrefix(q', q, sd);
          }
        }
        if IsNode(v, k0) {
          Increasing(v, k', k0);
          StepPast(v, k', d', k0, k, offset, depth);
        }
        if scan.Closed? {
          LandsLater(v, k', k);
          if IsNode(v, k) {
            Cursor(v, k);
          }
        } else if scan.Exhausted? {
          k := |v.body|;
        }
      } else {
        k := |v.body|;
      }
    }
    if offset == NOTFOUND || offset >= 0 {
      SkippedPast(v, nodeoffset, k0, k, offset);
      return BADOFFSET, nodedepth, m;
    } else if offset == BADOFFSET {
      return BADSTRUCTURE, nodedepth, m;
    }
    return offset, nodedepth, m;
  }

  lemma RootPath(v: View, t: Node) returns (q: Path)
    requires IsNode(v, 0)
    ensures q == [] && NodeAt(v, t, 0, q)
  {
    q := [];
    CursorEnds(v);
  }

  lemma RootCloses(v: View, t: Node)
    requires DecodesTo(v, t) && IsNode(v, 0)
    ensures CloseFrom(v.Ev(), EvIdx(v, 0) + 1, 0) == |v.Ev()|
  {
    hide Flat;
    CursorEnds(v);
    CloseAtEnd(v.Ev(), 0, t);
  }

  lemma FollowsPrefix(q: Path, q': Path, i: nat)
    requires Follows(q, q') && i < |q'|
    ensures i <= |q| && q'[..i] == q[..i]
  {
    assert q'[..i] == q'[..|q'| - 1][..i] && q[..i] == q[..|q'| - 1][..i];
  }

  lemma Increasing(v: View, k: nat, k0: nat)
    requires k <= |v.body| && k0 <= |v.body| && OffsetOf(v, k) < OffsetOf(v, k0)
    ensures k < k0
  {
    if k0 <= k {
      SizeMonotone(v.Toks(), k0, k);
    }
  }

  lemma SameToken(v: View, off: int, k0: int, k: nat)
    requires Points(v, off, k0) && IsNode(v, k) && off == OffsetOf(v, k)
    ensures k0 == k
  {
    OffsetInjective(v, k0, k);
  }

  lemma SkippedPast(v: View, off: int, k0: int, k: int, offset: int)
    requires Points(v, off, k0) && (offset >= 0 ==> 0 <= k <= |v.body| && offset == OffsetOf(v, k) && offset > off)
    requires IsNode(v, k0) ==> offset >= 0 && k <= k0
    ensures !IsNode(v, k0)
  {
    if IsNode(v, k0) {
      SizeMonotone(v.Toks(), k, k0);
    }
  }

  lemma {:induction false} ScanFirst(ev: seq<Event>, a: nat, d: int)
    ensures match ScanNode(ev, a, d)
      case Found(e, _) => e < |ev| && forall x | a <= x < e :: !ev[x].EBegin?
      case Closed(e) => e <= |ev| && forall x | a <= x < e :: !ev[x].EBegin?
      case Exhausted => true
    decreases |ev| - a
  {
    ScanSteps(ev, a, d, []);
    if a < |ev| && !ev[a].EBegin? {
      ScanFirst(ev, a + 1, if ev[a].EEnd? then d - 1 else d);
      ScanSteps(ev, a + 1, if ev[a].EEnd? then d - 1 else d, []);
    }
  }

  /** The step from the node at `k'` does not jump over a later node. */
  lemma StepPast(v: View, k': nat, d': nat, k0: nat, k: int, r: int, d: int)
    requires WfView(v) && IsNode(v, k') && IsNode(v, k0) && k' < k0
    requires CloseFrom(v.Ev(), EvIdx(v, k') + 1, d') == |v.Ev()|
    requires Lands(v, ScanNode(v.Ev(), EvIdx(v, k') + 1, d'), r, d, k)
    ensures ScanNode(v.Ev(), EvIdx(v, k') + 1, d').Found? && k <= k0
  {
    hide Events, ScanNode, CloseFrom;
    var ev, a, scan := v.Ev(), EvIdx(v, k') + 1, ScanNode(v.Ev(), EvIdx(v, k') + 1, d');
    Cursor(v, k');
    Cursor(v, k0);
    EvIdxMonotone(v, k' + 1, k0);
    ScanSteps(ev, a, d', []);
    ScanFirst(ev, a, d');
    assert ev[EvIdx(v, k0)].EBegin?;
    if k0 < k {
      Cursor(v, k0);
      EvIdxMonotone(v, k0 + 1, k);
    }
  }

  /** fdt_node_depth. */
  method NodeDepth(fdt: array<byte>, nodeoffset: i32, ghost v: View, ghost t: Node, ghost k0: int, ghost p: Path)
    returns (r: int)
    requires Holds(fdt[..], v) && DecodesTo(v, t) && Points(v, nodeoffset, k0) && IsNode(v, 0)
    requires IsNode(v, k0) ==> NodeAt(v, t, k0, p)
    ensures if IsNode(v, k0) then r == |p| else r < 0
  {
    var err, nodedepth, m := SupernodeAtDepth(fdt, nodeoffset, 0, v, t, k0, p);
    if IsNode(v, k0) {
      RootIsFirst(v, t, m, p[..0]);
    }
    if err != 0 {
      return if err < 0 then err else INTERNAL;
    }
    r := nodedepth;
  }

  lemma RootIsFirst(v: View, t: Node, m: int, q: Path)
    requires WfView(v) && IsNode(v, 0) && NodeAt(v, t, m, q) && q == []
    ensures m == 0 && OffsetOf(v, m) == 0
  {
    CursorEnds(v);
    EvIdxUnique(v, 0, m);
  }

  /** fdt_parent_offset: the parent; the root has none. */
  method ParentOffset(fdt: array<byte>, nodeoffset: i32, ghost v: View, ghost t: Node, ghost k0: int, ghost p: Path)
    returns (r: int, ghost m: int)
    requires Holds(fdt[..], v) && DecodesTo(v, t) && Points(v, nodeoffset, k0) && IsNode(v, 0)
    requires IsNode(v, k0) ==> NodeAt(v, t, k0, p)
    ensures !IsNode(v, k0) ==> r < 0
    ensures IsNode(v, k0) ==>
      if p == [] then r == NOTFOUND else NodeAt(v, t, m, p[..|p| - 1]) && r == OffsetOf(v, m)
  {
    var nodedepth := NodeDepth(fdt, nodeoffset, v, t, k0, p);
    if nodedepth < 0 {
      return nodedepth, 0;
    }
    var d;
    r, d, m := SupernodeAtDepth(fdt, nodeoffset, nodedepth - 1, v, t, k0, p);
  }
}
