/** What edits of a device tree promise together. */
module FdtLaws {
  import opened Memory
  import opened FdtBytes
  import opened FdtTree
  import opened FdtFormat
  import opened FdtBlob
  import opened FdtWalk
  import opened FdtLookup
  import opened FdtSplice
  import opened FdtEdit

  /** A node keeps its token and its path when its own contents behind its name change. */
  lemma NodeStays(s: seq<byte>, v: View, t: Node, k0: nat, p: Path, s': seq<byte>, v': View, m: Node)
    requires Holds(s, v) && NodeAt(v, t, k0, p) && Holds(s', v') && v'.strs == v.strs
    requires k0 < |v'.body| && v'.body[..k0 + 1] == v.body[..k0 + 1]
    ensures NodeAt(v', Replace(t, p, m), k0, p) && At(Replace(t, p, m), p) == m && OffsetOf(v', k0) == OffsetOf(v, k0)
  {
    hide Holds, Hdr, Events, Size, Pre, At, Replace;
    ReplaceAt(t, p, m);
    assert v'.body[..k0] == v'.body[..k0 + 1][..k0] == v.body[..k0];
    assert v'.body[k0] == v'.body[..k0 + 1][k0];
    assert v'.Toks()[..k0] == v'.body[..k0] && v.Toks()[..k0] == v.body[..k0];
  }

  /** A property's name is in the strings block already. */
  lemma NameThere(s: seq<byte>, v: View, k0: nat, k: int, n: Node, i: nat)
    requires Holds(s, v) && PropAt(v, k0, k, n, i)
    ensures StringGrowth(v.strs, n.props[i].name) == 0
  {
    hide Hdr, Encodes, RsvEnc;
    assert v.Toks()[k] == v.body[k];
    assert Terminated(v.strs, v.body[k].nameoff);
    assert IsStr(v.strs, v.body[k].nameoff, StrAt(v.strs, v.body[k].nameoff));
  }

  /** Deleting a property and setting it again to a value that is no longer always
      succeeds. */
  method DelThenSet(fdt: array<byte>, nodeoffset: i32, name: Name, value: seq<byte>,
                    ghost v: View, ghost t: Node, ghost k0: nat, ghost p: Path)
    returns (err: int, ghost v': View)
    requires Holds(fdt[..], v) && DecodesTo(v, t) && NodeAt(v, t, k0, p) && nodeoffset == OffsetOf(v, k0)
    requires 0 !in name && FirstProp(At(t, p).props, name) < |At(t, p).props|
    requires |value| <= |FirstOf(At(t, p), name).value| && |value| < TWO31 - 16
    modifies fdt
    ensures err == 0 && Holds(fdt[..], v') && v'.rsv == v.rsv
    ensures var n := At(t, p); var i := FirstProp(n.props, name);
      DecodesTo(v', Replace(t, p, SetProperty(n.(props := n.props[..i] + n.props[i + 1..]), name, value)))
    ensures HEADER <= fdt.Length && Hdr(fdt[..]).totalsize == old(Hdr(fdt[..])).totalsize
  {
    hide Holds, Hdr, Size, Events, Flat, Pre, At, Replace, FirstProp, NameAt, StringGrowth, DecodesTo, NodeAt, PropAt;
    NodeFacts(v, t, k0, p);
    ghost var s, n := fdt[..], At(t, p);
    ghost var i := FirstProp(n.props, name);
    Layout(s, v);
    var r, len, k := GetProperty(fdt, nodeoffset, name, v, t, k0, p);
    NameThere(s, v, k0, k, n, i);
    var e, v1 := DelProp(fdt, nodeoffset, name, v, t, k0, p);
    ghost var m := n.(props := n.props[..i] + n.props[i + 1..]);
    NodeStays(s, v, t, k0, p, fdt[..], v1, m);
    Layout(fdt[..], v1);
    GrowsBy(s, fdt[..], 0, -12 - Align4(|n.props[i].value|), 0);
    NodeFacts(v1, Replace(t, p, m), k0, p);
    err, v' := SetProp(fdt, nodeoffset, name, value, v1, Replace(t, p, m), k0, p);
    ReplaceTwice(t, p, m, SetProperty(m, name, value));
  }

  lemma {:induction false} ReplaceTwice(n: Node, p: Path, m: Node, k: Node)
    requires ValidPath(n, p) && ValidPath(Replace(n, p, m), p)
    ensures Replace(Replace(n, p, m), p, k) == Replace(n, p, k)
    decreases p
  {
    if |p| == 1 {
      var i, r := p[0], Replace(n, p, m);
      assert r.children[..i] == n.children[..i] && r.children[i + 1..] == n.children[i + 1..];
    } else if p != [] {
      var i, r := p[0], Replace(n, p, m);
      assert r.children[i] == Replace(n.children[i], p[1..], m);
      ReplaceTwice(n.children[i], p[1..], m, k);
    }
  }

  lemma NodeFacts(v: View, t: Node, k0: nat, p: Path)
    requires NodeAt(v, t, k0, p)
    ensures IsNode(v, k0) && ValidPath(t, p) && Names(v, OffsetOf(v, k0), k0)
  {
  }
}
