/** Preorder scans over the event stream of a tree, counting depth, and what
    they find in terms of the tree. The walkers over a blob are proved against
    these scans. */
module FdtScan {
  import opened FdtBytes
  import opened FdtTree

  datatype Scan = Found(at: nat, depth: int) | Closed(at: nat) | Exhausted

  /** fdt_next_node from event `e` at depth `d`: the next node, or the point just
      after the end tag that takes the depth below zero. */
  function ScanNode(ev: seq<Event>, e: nat, d: int): Scan
    decreases |ev| - e
  {
    if e >= |ev| then Exhausted
    else match ev[e]
      case EBegin(_) => Found(e, d + 1)
      case EProp(_, _) => ScanNode(ev, e + 1, d)
      case EEnd => if d - 1 < 0 then Closed(e + 1) else ScanNode(ev, e + 1, d - 1)
  }

  /** Where the depth first falls below zero, starting at depth `d`; -1 if never. */
  function CloseFrom(ev: seq<Event>, e: nat, d: int): int
    decreases |ev| - e
  {
    if e >= |ev| then -1
    else match ev[e]
      case EBegin(_) => CloseFrom(ev, e + 1, d + 1)
      case EProp(_, _) => CloseFrom(ev, e + 1, d)
      case EEnd => if d - 1 < 0 then e + 1 else CloseFrom(ev, e + 1, d - 1)
  }

  const AT_SIGN: byte := 64

  /** A search name matches a node name, or the part before its unit address when
      the search name has none. */
  predicate NameMatch(node: Name, s: Name) {
    node == s || (AT_SIGN !in s && |node| > |s| && node[..|s|] == s && node[|s|] == AT_SIGN)
  }

  /** The first node at depth one whose name matches; -1 if the depth falls below
      zero first. */
  function SubFrom(ev: seq<Event>, e: nat, d: int, s: Name): int
    decreases |ev| - e
  {
    if e >= |ev| then -1
    else match ev[e]
      case EBegin(n) => if d + 1 == 1 && NameMatch(n, s) then e else SubFrom(ev, e + 1, d + 1, s)
      case EProp(_, _) => SubFrom(ev, e + 1, d, s)
      case EEnd => if d - 1 < 0 then -1 else SubFrom(ev, e + 1, d - 1, s)
  }

  lemma {:induction false} ScanSteps(ev: seq<Event>, e: nat, d: int, s: Name)
    ensures match ScanNode(ev, e, d)
      case Found(at, d') =>
        && e <= at < |ev| && ev[at].EBegin? && (d >= 0 ==> d' >= 1)
        && CloseFrom(ev, e, d) == CloseFrom(ev, at + 1, d')
        && SubFrom(ev, e, d, s) == (if d' == 1 && NameMatch(ev[at].name, s) then at else SubFrom(ev, at + 1, d', s))
      case Closed(at) => e < at <= |ev| && CloseFrom(ev, e, d) == at && SubFrom(ev, e, d, s) == -1
      case Exhausted => CloseFrom(ev, e, d) == -1 && SubFrom(ev, e, d, s) == -1
    decreases |ev| - e
  {
    if e < |ev| {
      match ev[e]
      case EBegin(_) =>
      case EProp(_, _) => ScanSteps(ev, e + 1, d, s);
      case EEnd =>
        if d - 1 >= 0 {
          ScanSteps(ev, e + 1, d - 1, s);
        }
    }
  }

  /** `part` occurs in `ev` at `e`. */
  predicate Occurs(ev: seq<Event>, e: nat, part: seq<Event>) {
    e + |part| <= |ev| && ev[e..e + |part|] == part
  }

  lemma OccursPart(ev: seq<Event>, e: nat, a: seq<Event>, b: seq<Event>, c: seq<Event>)
    requires Occurs(ev, e, a + b + c)
    ensures Occurs(ev, e, a) && Occurs(ev, e + |a|, b) && Occurs(ev, e + |a| + |b|, c)
  {
    var p := a + b + c;
    SliceSlice(ev, e, e + |p|, 0, |a|);
    SliceSlice(ev, e, e + |p|, |a|, |a| + |b|);
    SliceSlice(ev, e, e + |p|, |a| + |b|, |p|);
    assert p[0..|a|] == a && p[|a|..|a| + |b|] == b && p[|a| + |b|..|p|] == c;
  }

  lemma OccursHead(ev: seq<Event>, e: nat, part: seq<Event>)
    requires Occurs(ev, e, part) && part != []
    ensures e < |ev| && ev[e] == part[0]
  {
    assert ev[e] == ev[e..e + |part|][0];
  }

  // ----- Properties are skipped

  lemma {:induction false} SkipProps(ev: seq<Event>, e: nat, d: int, ps: seq<Property>, s: Name)
    requires Occurs(ev, e, PropEvents(ps))
    ensures CloseFrom(ev, e, d) == CloseFrom(ev, e + |ps|, d)
    ensures SubFrom(ev, e, d, s) == SubFrom(ev, e + |ps|, d, s)
    decreases |ps|
  {
    if ps != [] {
      var r := PropEvents(ps);
      OccursHead(ev, e, r);
      assert r == [r[0]] + PropEvents(ps[1..]) + [];
      OccursPart(ev, e, [r[0]], PropEvents(ps[1..]), []);
      SkipProps(ev, e + 1, d, ps[1..], s);
    }
  }

  // ----- A whole node is skipped when it is not at depth one

  lemma NodeParts(ev: seq<Event>, e: nat, n: Node)
    requires Occurs(ev, e, Flat(n))
    ensures e < |ev| && ev[e] == EBegin(n.name)
    ensures Occurs(ev, e + 1, PropEvents(n.props))
    ensures Occurs(ev, e + 1 + |n.props|, FlatAll(n.children))
    ensures e + |Flat(n)| - 1 == e + 1 + |n.props| + |FlatAll(n.children)| < |ev|
    ensures ev[e + |Flat(n)| - 1] == EEnd
  {
    var h, p, c := [EBegin(n.name)], PropEvents(n.props), FlatAll(n.children);
    assert Flat(n) == (h + p) + c + [EEnd];
    OccursPart(ev, e, h + p, c, [EEnd]);
    OccursHead(ev, e + |h + p| + |c|, [EEnd]);
    assert h + p == h + p + [];
    OccursPart(ev, e, h, p, []);
    OccursHead(ev, e, h);
  }

  lemma {:induction false} SkipNode(ev: seq<Event>, e: nat, d: int, n: Node, s: Name)
    requires Occurs(ev, e, Flat(n)) && d >= 0
    ensures CloseFrom(ev, e, d) == CloseFrom(ev, e + |Flat(n)|, d)
    ensures SubFrom(ev, e, d, s) == (if d == 0 && NameMatch(n.name, s) then e else SubFrom(ev, e + |Flat(n)|, d, s))
    decreases n, 1
  {
    hide Flat, FlatAll;
    NodeParts(ev, e, n);
    SkipProps(ev, e + 1, d + 1, n.props, s);
    SkipNodes(ev, e + 1 + |n.props|, d + 1, n.children, s);
  }

  lemma {:induction false} SkipNodes(ev: seq<Event>, e: nat, d: int, ns: seq<Node>, s: Name)
    requires Occurs(ev, e, FlatAll(ns)) && d >= 1
    ensures CloseFrom(ev, e, d) == CloseFrom(ev, e + |FlatAll(ns)|, d)
    ensures SubFrom(ev, e, d, s) == SubFrom(ev, e + |FlatAll(ns)|, d, s)
    decreases ns, 0
  {
    hide Flat;
    if ns != [] {
      assert FlatAll(ns) == Flat(ns[0]) + FlatAll(ns[1..]) + [];
      OccursPart(ev, e, Flat(ns[0]), FlatAll(ns[1..]), []);
      SkipNode(ev, e, d, ns[0], s);
      SkipNodes(ev, e + |Flat(ns[0])|, d, ns[1..], s);
    }
  }

  lemma {:induction false} CloseAll(ev: seq<Event>, e: nat, d: int, ns: seq<Node>)
    requires Occurs(ev, e, FlatAll(ns)) && d >= 0
    ensures CloseFrom(ev, e, d) == CloseFrom(ev, e + |FlatAll(ns)|, d)
    decreases ns
  {
    hide Flat;
    if ns != [] {
      assert FlatAll(ns) == Flat(ns[0]) + FlatAll(ns[1..]) + [];
      OccursPart(ev, e, Flat(ns[0]), FlatAll(ns[1..]), []);
      SkipNode(ev, e, d, ns[0], []);
      CloseAll(ev, e + |Flat(ns[0])|, d, ns[1..]);
    }
  }

  /** From just inside a node at depth zero, the depth falls below zero exactly at
      that node's own end tag. */
  lemma CloseAtEnd(ev: seq<Event>, e: nat, n: Node)
    requires Occurs(ev, e, Flat(n))
    ensures CloseFrom(ev, e + 1, 0) == e + |Flat(n)|
  {
    hide Flat, FlatAll;
    NodeParts(ev, e, n);
    SkipProps(ev, e + 1, 0, n.props, []);
    CloseAll(ev, e + 1 + |n.props|, 0, n.children);
  }

  // ----- The subnode search finds the first matching child

  /** Index of the first node in `ns` whose name matches, or |ns|. */
  function FirstMatch(ns: seq<Node>, s: Name): (i: nat)
    ensures i <= |ns|
    ensures i < |ns| ==> NameMatch(ns[i].name, s)
    ensures forall j | 0 <= j < i :: !NameMatch(ns[j].name, s)
  {
    if ns == [] then 0
    else if NameMatch(ns[0].name, s) then 0
    else
      var i := FirstMatch(ns[1..], s);
      assert forall j | 1 <= j < 1 + i :: ns[j] == ns[1..][j - 1];
      1 + i
  }

  lemma PrefixLength(ns: seq<Node>, i: nat)
    requires 0 < i <= |ns|
    ensures |FlatAll(ns[..i])| == |Flat(ns[0])| + |FlatAll(ns[1..][..i - 1])|
  {
    assert ns[..i][1..] == ns[1..][..i - 1];
  }

  lemma {:induction false} SubAll(ev: seq<Event>, e: nat, ns: seq<Node>, s: Name)
    requires Occurs(ev, e, FlatAll(ns))
    ensures var i := FirstMatch(ns, s);
      SubFrom(ev, e, 0, s) ==
        if i < |ns| then e + |FlatAll(ns[..i])| else SubFrom(ev, e + |FlatAll(ns)|, 0, s)
    decreases ns
  {
    hide Flat;
    if ns != [] {
      assert FlatAll(ns) == Flat(ns[0]) + FlatAll(ns[1..]) + [];
      OccursPart(ev, e, Flat(ns[0]), FlatAll(ns[1..]), []);
      SkipNode(ev, e, 0, ns[0], s);
      SubAll(ev, e + |Flat(ns[0])|, ns[1..], s);
      var i := FirstMatch(ns, s);
      if 0 < i {
        PrefixLength(ns, i);
      }
    }
  }

  lemma SubInNode(ev: seq<Event>, e: nat, n: Node, s: Name)
    requires Occurs(ev, e, Flat(n))
    ensures var i := FirstMatch(n.children, s);
      SubFrom(ev, e + 1, 0, s) ==
        if i < |n.children| then e + 1 + |n.props| + |FlatAll(n.children[..i])| else -1
  {
    hide Flat, FlatAll;
    NodeParts(ev, e, n);
    SkipProps(ev, e + 1, 0, n.props, s);
    SubAll(ev, e + 1 + |n.props|, n.children, s);
  }
}
