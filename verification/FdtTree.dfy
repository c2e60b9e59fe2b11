/** The abstract device tree: named nodes with an ordered list of properties and
    an ordered list of children, its flattening into a stream of events, and the
    tree edits that the blob edits must match. */
module FdtTree {
  import opened FdtBytes

  type Name = seq<byte>

  datatype Property = Property(name: Name, value: seq<byte>)
  datatype Node = Node(name: Name, props: seq<Property>, children: seq<Node>)

  /** One structure-block tag with its payload; property names are resolved and
      FDT_NOP does not appear. */
  datatype Event = EBegin(name: Name) | EProp(name: Name, value: seq<byte>) | EEnd

  function PropEvents(ps: seq<Property>): (r: seq<Event>)
    ensures |r| == |ps|
    ensures forall i | 0 <= i < |ps| :: r[i] == EProp(ps[i].name, ps[i].value)
  {
    seq(|ps|, i requires 0 <= i < |ps| => EProp(ps[i].name, ps[i].value))
  }

  function Flat(n: Node): (r: seq<Event>)
    decreases n, 1
  {
    [EBegin(n.name)] + PropEvents(n.props) + FlatAll(n.children) + [EEnd]
  }

  function FlatAll(ns: seq<Node>): seq<Event>
    decreases ns, 0
  {
    if ns == [] then [] else Flat(ns[0]) + FlatAll(ns[1..])
  }

  lemma {:induction false} FlatAllConcat(a: seq<Node>, b: seq<Node>)
    ensures FlatAll(a + b) == FlatAll(a) + FlatAll(b)
  {
    if a == [] {
      assert a + b == b;
    } else {
      FlatAllConcat(a[1..], b);
      assert (a + b)[1..] == a[1..] + b;
      Assoc(Flat(a[0]), FlatAll(a[1..]), FlatAll(b));
    }
  }

  lemma FlatAllOne(n: Node)
    ensures FlatAll([n]) == Flat(n)
  {
    assert [n][1..] == [];
  }

  lemma FlatAllSplit(ns: seq<Node>, i: nat)
    requires i < |ns|
    ensures FlatAll(ns) == FlatAll(ns[..i]) + Flat(ns[i]) + FlatAll(ns[i + 1..])
  {
    hide Flat, FlatAll;
    var a, x, b := ns[..i], [ns[i]], ns[i + 1..];
    Cut(ns, i);
    FlatAllConcat(a + x, b);
    FlatAllConcat(a, x);
    FlatAllOne(ns[i]);
  }

  lemma Cut<T>(s: seq<T>, i: nat)
    requires i < |s|
    ensures s == s[..i] + [s[i]] + s[i + 1..]
  {
  }

  lemma Assoc<T>(a: seq<T>, b: seq<T>, c: seq<T>)
    ensures (a + b) + c == a + (b + c)
  {
  }

  lemma Regroup<T>(h: seq<T>, a: seq<T>, b: seq<T>, c: seq<T>, e: seq<T>)
    ensures h + (a + b + c) + e == h + a + b + (c + e)
  {
  }

  // ----- Paths: the child index to follow at each level

  type Path = seq<nat>

  predicate ValidPath(n: Node, p: Path) {
    p == [] || (p[0] < |n.children| && ValidPath(n.children[p[0]], p[1..]))
  }

  function At(n: Node, p: Path): Node
    requires ValidPath(n, p)
  {
    if p == [] then n else At(n.children[p[0]], p[1..])
  }

  /** The tree with the node at `p` replaced by the nodes `ms` (none, one or more). */
  function Graft(n: Node, p: Path, ms: seq<Node>): (r: Node)
    requires ValidPath(n, p) && p != []
    decreases p
  {
    var i := p[0];
    if |p| == 1 then n.(children := n.children[..i] + ms + n.children[i + 1..])
    else n.(children := n.children[i := Graft(n.children[i], p[1..], ms)])
  }

  function Replace(n: Node, p: Path, m: Node): (r: Node)
    requires ValidPath(n, p)
  {
    if p == [] then m else Graft(n, p, [m])
  }

  function Delete(n: Node, p: Path): (r: Node)
    requires ValidPath(n, p) && p != []
  {
    Graft(n, p, [])
  }

  /** Events before, and after, the node at `p`. */
  function Pre(n: Node, p: Path): seq<Event>
    requires ValidPath(n, p)
    decreases p
  {
    if p == [] then []
    else [EBegin(n.name)] + PropEvents(n.props) + FlatAll(n.children[..p[0]]) + Pre(n.children[p[0]], p[1..])
  }

  function Post(n: Node, p: Path): seq<Event>
    requires ValidPath(n, p)
    decreases p
  {
    if p == [] then [] else Post(n.children[p[0]], p[1..]) + FlatAll(n.children[p[0] + 1..]) + [EEnd]
  }

  lemma {:induction false} FlatGraft(n: Node, p: Path, ms: seq<Node>)
    requires ValidPath(n, p) && p != []
    ensures Flat(Graft(n, p, ms)) == Pre(n, p) + FlatAll(ms) + Post(n, p)
    decreases p
  {
    var i := p[0];
    var cs, c := n.children, n.children[i];
    var head := [EBegin(n.name)] + PropEvents(n.props) + FlatAll(cs[..i]);
    if |p| == 1 {
      FlatAllConcat(cs[..i] + ms, cs[i + 1..]);
      FlatAllConcat(cs[..i], ms);
      assert p[1..] == [];
      Regroup([EBegin(n.name)] + PropEvents(n.props), FlatAll(cs[..i]), FlatAll(ms), FlatAll(cs[i + 1..]), [EEnd]);
    } else {
      var d := Graft(c, p[1..], ms);
      FlatGraft(c, p[1..], ms);
      var cs' := cs[i := d];
      FlatAllSplit(cs', i);
      assert cs'[..i] == cs[..i] && cs'[i + 1..] == cs[i + 1..];
      Regroup([EBegin(n.name)] + PropEvents(n.props), FlatAll(cs[..i]), Flat(d), FlatAll(cs[i + 1..]), [EEnd]);
      Regroup(head, Pre(c, p[1..]), FlatAll(ms), Post(c, p[1..]), FlatAll(cs[i + 1..]) + [EEnd]);
      Assoc(Post(c, p[1..]), FlatAll(cs[i + 1..]), [EEnd]);
    }
  }

  /** Replacing the node at `p` replaces exactly its stretch of the stream. */
  lemma FlatReplace(n: Node, p: Path, m: Node)
    requires ValidPath(n, p)
    ensures Flat(Replace(n, p, m)) == Pre(n, p) + Flat(m) + Post(n, p)
  {
    if p != [] {
      FlatGraft(n, p, [m]);
      FlatAllOne(m);
    }
  }

  lemma {:induction false} GraftSame(n: Node, p: Path)
    requires ValidPath(n, p) && p != []
    ensures Graft(n, p, [At(n, p)]) == n
    decreases p
  {
    var i := p[0];
    if |p| == 1 {
      assert n.children == n.children[..i] + [n.children[i]] + n.children[i + 1..];
    } else {
      GraftSame(n.children[i], p[1..]);
      assert n.children[i := n.children[i]] == n.children;
    }
  }

  lemma FlatAt(n: Node, p: Path)
    requires ValidPath(n, p)
    ensures Flat(n) == Pre(n, p) + Flat(At(n, p)) + Post(n, p)
  {
    FlatReplace(n, p, At(n, p));
    if p != [] {
      GraftSame(n, p);
    }
  }

  lemma FlatDelete(n: Node, p: Path)
    requires ValidPath(n, p) && p != []
    ensures Flat(Delete(n, p)) == Pre(n, p) + Post(n, p)
  {
    FlatGraft(n, p, []);
  }

  lemma {:induction false} PreConcat(n: Node, p: Path, q: Path)
    requires ValidPath(n, p) && ValidPath(At(n, p), q)
    ensures ValidPath(n, p + q) && At(n, p + q) == At(At(n, p), q)
    ensures Pre(n, p + q) == Pre(n, p) + Pre(At(n, p), q)
    decreases p
  {
    hide FlatAll, PropEvents;
    if p == [] {
      assert p + q == q;
    } else {
      var c := n.children[p[0]];
      PreConcat(c, p[1..], q);
      assert (p + q)[1..] == p[1..] + q && (p + q)[0] == p[0];
      Assoc([EBegin(n.name)] + PropEvents(n.props) + FlatAll(n.children[..p[0]]), Pre(c, p[1..]),
        Pre(At(c, p[1..]), q));
    }
  }

  /** The replaced node is where it was, with the same events before it. */
  lemma {:induction false} ReplaceAt(n: Node, p: Path, m: Node)
    requires ValidPath(n, p)
    ensures ValidPath(Replace(n, p, m), p) && At(Replace(n, p, m), p) == m && Pre(Replace(n, p, m), p) == Pre(n, p)
    decreases p
  {
    if p != [] {
      var i := p[0];
      ReplaceAt(n.children[i], p[1..], m);
      var r := Replace(n, p, m);
      assert r.children == n.children[i := Replace(n.children[i], p[1..], m)];
      assert r.children[..i] == n.children[..i];
    }
  }

  // ----- Which node begins at a given event

  /** Every begin event is the start of exactly one node of the tree. */
  lemma {:induction false} Locate(n: Node, e: nat) returns (p: Path)
    requires e < |Flat(n)| && Flat(n)[e].EBegin?
    ensures ValidPath(n, p) && |Pre(n, p)| == e
    decreases n, 1
  {
    if e == 0 {
      p := [];
    } else {
      var h := 1 + |n.props|;
      assert h <= e < h + |FlatAll(n.children)|;
      var i, q := LocateAll(n.children, e - h);
      p := [i] + q;
      assert p[1..] == q;
    }
  }

  lemma {:induction false} LocateAll(ns: seq<Node>, e: nat) returns (i: nat, p: Path)
    requires e < |FlatAll(ns)| && FlatAll(ns)[e].EBegin?
    ensures i < |ns| && ValidPath(ns[i], p) && |FlatAll(ns[..i])| + |Pre(ns[i], p)| == e
    decreases ns, 0
  {
    var f := |Flat(ns[0])|;
    if e < f {
      i := 0;
      p := Locate(ns[0], e);
    } else {
      var j;
      j, p := LocateAll(ns[1..], e - f);
      i := j + 1;
      assert ns[..i] == [ns[0]] + ns[1..][..j];
      FlatAllConcat([ns[0]], ns[1..][..j]);
      FlatAllOne(ns[0]);
    }
  }

  lemma PreBefore(n: Node, p: Path, i: nat)
    requires ValidPath(n, p) && p != [] && p[0] < i <= |n.children|
    ensures |Pre(n, p)| < 1 + |n.props| + |FlatAll(n.children[..i])|
  {
    var cs := n.children;
    assert cs[..i][..p[0]] == cs[..p[0]];
    FlatAllSplit(cs[..i], p[0]);
    FlatAt(cs[p[0]], p[1..]);
  }

  lemma {:induction false} PreInjective(n: Node, p: Path, q: Path)
    requires ValidPath(n, p) && ValidPath(n, q) && |Pre(n, p)| == |Pre(n, q)|
    ensures p == q
    decreases p
  {
    if p != [] && q != [] {
      if p[0] < q[0] {
        PreBefore(n, p, q[0]);
      } else if q[0] < p[0] {
        PreBefore(n, q, p[0]);
      } else {
        PreInjective(n.children[p[0]], p[1..], q[1..]);
      }
      assert p == [p[0]] + p[1..] && q == [q[0]] + q[1..];
    }
  }

  // ----- Unique decoding: a stream flattens at most one tree

  lemma {:induction false} FlatUnique(m: Node, n: Node, x: seq<Event>, y: seq<Event>)
    requires Flat(m) + x == Flat(n) + y
    ensures m == n && x == y
    decreases m, 1
  {
    var s := Flat(m) + x;
    assert s[0] == EBegin(m.name) == EBegin(n.name);
    var mr, nr := FlatAll(m.children) + [EEnd] + x, FlatAll(n.children) + [EEnd] + y;
    assert s[1..] == PropEvents(m.props) + mr;
    assert s[1..] == PropEvents(n.props) + nr;
    ChildStart(m.children, x);
    ChildStart(n.children, y);
    PropsUnique(m.props, n.props, mr, nr);
    assert FlatAll(m.children) + ([EEnd] + x) == mr && FlatAll(n.children) + ([EEnd] + y) == nr;
    FlatAllUnique(m.children, n.children, [EEnd] + x, [EEnd] + y);
    assert x == ([EEnd] + x)[1..] && y == ([EEnd] + y)[1..];
  }

  lemma ChildStart(ns: seq<Node>, x: seq<Event>)
    ensures !(FlatAll(ns) + [EEnd] + x)[0].EProp?
  {
  }

  lemma PropStop(a: seq<Property>, x: seq<Event>)
    requires x != [] && !x[0].EProp?
    ensures forall i | 0 <= i <= |a| :: (PropEvents(a) + x)[i].EProp? <==> i < |a|
  {
  }

  lemma {:induction false} PropsUnique(a: seq<Property>, b: seq<Property>, x: seq<Event>, y: seq<Event>)
    requires PropEvents(a) + x == PropEvents(b) + y
    requires x != [] && !x[0].EProp? && y != [] && !y[0].EProp?
    ensures a == b && x == y
  {
    var s := PropEvents(a) + x;
    PropStop(a, x);
    PropStop(b, y);
    assert !s[|a|].EProp? && !s[|b|].EProp?;
    forall i | 0 <= i < |a|
      ensures a[i] == b[i]
    {
      assert s[i] == PropEvents(a)[i] && s[i] == PropEvents(b)[i];
    }
    assert x == s[|a|..] && y == s[|b|..];
  }

  lemma ListStart(ns: seq<Node>, x: seq<Event>)
    requires x != []
    ensures (FlatAll(ns) + x)[0] == if ns == [] then x[0] else EBegin(ns[0].name)
    ensures ns == [] ==> FlatAll(ns) + x == x
  {
  }

  lemma {:induction false} FlatAllUnique(a: seq<Node>, b: seq<Node>, x: seq<Event>, y: seq<Event>)
    requires FlatAll(a) + x == FlatAll(b) + y
    requires x != [] && x[0] == EEnd && y != [] && y[0] == EEnd
    ensures a == b && x == y
    decreases a, 0
  {
    var s := FlatAll(a) + x;
    ListStart(a, x);
    ListStart(b, y);
    if a != [] && b != [] {
      Assoc(Flat(a[0]), FlatAll(a[1..]), x);
      Assoc(Flat(b[0]), FlatAll(b[1..]), y);
      FlatUnique(a[0], b[0], FlatAll(a[1..]) + x, FlatAll(b[1..]) + y);
      FlatAllUnique(a[1..], b[1..], x, y);
      assert a == [a[0]] + a[1..] && b == [b[0]] + b[1..];
    }
  }
}
