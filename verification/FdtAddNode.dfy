/** fdt_add_subnode: the new node becomes the first child of its parent. */
module FdtAddNode {
  import opened FdtBytes
  import opened FdtTree
  import opened FdtFormat
  import opened FdtBlob
  import opened FdtScan
  import opened FdtWalk
  import opened FdtLookup
  import opened FdtSplice
  import opened FdtEdit

  /** The scan past the parent's properties and nops: the first token that is
      neither, where the children (or the parent's end tag) start. */
  method SkipProperties(fdt: array<byte>, start: nat, ghost v: View, ghost t: Node, ghost k0: nat, ghost p: Path)
    returns (r: int, ghost k: nat)
    requires Holds(fdt[..], v) && DecodesTo(v, t) && NodeAt(v, t, k0, p) && start == OffsetOf(v, k0 + 1)
    ensures k0 < k < |v.body| && r == OffsetOf(v, k)
    ensures EvIdx(v, k) == EvIdx(v, k0) + 1 + |At(t, p).props|
  {
    hide Holds, TagFrom, Size, Events, Flat, Pre, At, DecodesTo, Encodes, Resolvable;
    WfOf(fdt[..], v);
    ghost var e, n := EvIdx(v, k0), At(t, p);
    NodeOccurs(v, t, k0, p);
    NodeEvents(v.Ev(), e, n);
    Cursor(v, k0);
    CursorEnds(v);
    var next := start;
    k := k0 + 1;
    while true
      invariant k0 < k <= |v.body| && next == OffsetOf(v, k)
      invariant e + 1 <= EvIdx(v, k) <= e + 1 + |n.props|
      decreases |v.body| - k
    {
      r := next;
      TagAt(fdt[..], v, k);
      TokIs(v, k);
      var tag;
      tag, next := NextTag(fdt, r, v);
      assert k < |v.body|;
      Cursor(v, k);
      if tag != FDT_PROP && tag != FDT_NOP {
        return;
      }
      k := k + 1;
    }
  }

  /** Filling the gap opened at `z` with an empty node. */
  method WriteNode(fdt: array<byte>, z: nat, name: Name, ghost s: seq<byte>)
    requires 0 !in name && StructSpliced(s, fdt[..], z, 0, 4 + Align4(|name| + 1) + 4)
    modifies fdt
    ensures StructSpliced(s, fdt[..], z, 0, 4 + Align4(|name| + 1) + 4)
    ensures z + (4 + Align4(|name| + 1) + 4) <= fdt.Length
    ensures Encodes(fdt[..][z..z + (4 + Align4(|name| + 1) + 4)], [Begin(name), EndNode])
    ensures Word(fdt[..], z) == FDT_BEGIN_NODE && Padded(fdt[..], z + 4, name)
    ensures Word(fdt[..], z + 4 + Align4(|name| + 1)) == FDT_END_NODE
  {
    hide Hdr, Word, Encodes, StructSpliced, PutBytes, TokEnc;
    var a := Align4(|name| + 1);
    ghost var n := 4 + a + 4;
    ghost var s1 := fdt[..];
    GapBounds(s, s1, z, 0, n);
    StoreWord(fdt, z, FDT_BEGIN_NODE);
    ghost var s2 := fdt[..];
    Memzero(fdt, z + 4, a);
    ghost var s3 := fdt[..];
    Memcpy(fdt, z + 4, name);
    ghost var s4 := fdt[..];
    StoreWord(fdt, z + 4 + a, FDT_END_NODE);
    ghost var s5 := fdt[..];
    StructWrite(s, s1, z, 0, n, z, EncWord(FDT_BEGIN_NODE));
    StructWrite(s, s2, z, 0, n, z + 4, Zeros(a));
    StructWrite(s, s3, z, 0, n, z + 4, name);
    StructWrite(s, s4, z, 0, n, z + 4 + a, EncWord(FDT_END_NODE));
    PutWordEffect(s1, z, FDT_BEGIN_NODE);
    PutBytesEffect(s2, z + 4, Zeros(a));
    PutBytesEffect(s3, z + 4, name);
    PutWordEffect(s4, z + 4 + a, FDT_END_NODE);
    ZeroedName(s2, z + 4, a, name, EncWord(FDT_END_NODE));
    NodeEncoded(s5, z, name);
  }

  /** The name at `z`, filled up with zeros to whole words. */
  ghost predicate Padded(s: seq<byte>, z: nat, name: Name) {
    && z + Align4(|name| + 1) <= |s| && s[z..z + |name|] == name
    && forall j | z + |name| <= j < z + Align4(|name| + 1) :: s[j] == 0
  }

  lemma ZeroedName(s: seq<byte>, z: nat, a: nat, name: Name, e: seq<byte>)
    requires a == Align4(|name| + 1) && z + a + |e| <= |s|
    ensures var r := PutBytes(PutBytes(PutBytes(s, z, Zeros(a)), z, name), z + a, e);
      Padded(r, z, name) && r[z + |name|] == 0
  {
    var s1 := PutBytes(s, z, Zeros(a));
    var s2 := PutBytes(s1, z, name);
    var r := PutBytes(s2, z + a, e);
    assert s2[z..z + |name|] == name && forall j | z + |name| <= j < z + a :: s2[j] == s1[j] == 0;
    assert forall j | z <= j < z + a :: r[j] == s2[j];
    hide PutBytes;
  }

  lemma NodeEncoded(s: seq<byte>, z: nat, name: Name)
    requires z + 4 + Align4(|name| + 1) + 4 <= |s|
    requires Word(s, z) == FDT_BEGIN_NODE && Word(s, z + 4 + Align4(|name| + 1)) == FDT_END_NODE
    requires s[z + 4..z + 4 + |name|] == name && s[z + 4 + |name|] == 0 && 0 !in name
    ensures Encodes(s[z..z + (4 + Align4(|name| + 1) + 4)], [Begin(name), EndNode])
  {
    hide Word, Encodes;
    var y := z + TokLen(Begin(name));
    BeginEncoded(s, z, name);
    EncodesOne(s[z..y], Begin(name));
    WordAtSlice(s, y, 4, 0);
    EncodesOne(s[y..y + 4], EndNode);
    EncodesConcat(s[z..y], [Begin(name)], s[y..y + 4], [EndNode]);
    assert s[z..y] + s[y..y + 4] == s[z..y + 4];
    assert [Begin(name)] + [EndNode] == [Begin(name), EndNode];
  }

  /** A child put in front of the others. */
  function AddFirst(n: Node, name: Name): Node {
    n.(children := [Node(name, [], [])] + n.children)
  }

  lemma AddDecodesNode(v: View, t: Node, k0: nat, p: Path, k: nat, name: Name)
    requires WfView(v) && DecodesTo(v, t) && NodeAt(v, t, k0, p) && k0 < k <= |v.body|
    requires EvIdx(v, k) == EvIdx(v, k0) + 1 + |At(t, p).props|
    ensures DecodesTo(ReplaceToks(v, k, k, [Begin(name), EndNode]), Replace(t, p, AddFirst(At(t, p), name)))
  {
    hide Pre, At, Replace, Events;
    var n := At(t, p);
    var m, c := AddFirst(n, name), Node(name, [], []);
    var x, y', z := [EBegin(n.name)] + PropEvents(n.props), [EBegin(name), EEnd], FlatAll(n.children) + [EEnd];
    EventsOne(Begin(name), v.strs);
    EventsOne(EndNode, v.strs);
    EventsConcat([Begin(name)], [EndNode], v.strs);
    assert [Begin(name)] + [EndNode] == [Begin(name), EndNode];
    assert Flat(c) == y';
    assert m.children[1..] == n.children;
    assert Flat(n) == x + [] + z;
    assert Flat(m) == x + y' + z;
    NodeEdit(v, t, k0, p, m, k, k, [Begin(name), EndNode], x, [], y', z);
  }

  /** The inserted token begins the new first child. */
  lemma NewNodeAt(v: View, t: Node, k0: nat, p: Path, k: nat, name: Name)
    requires NodeAt(v, t, k0, p) && k0 < k <= |v.body|
    requires EvIdx(v, k) == EvIdx(v, k0) + 1 + |At(t, p).props|
    ensures var v' := ReplaceToks(v, k, k, [Begin(name), EndNode]);
      NodeAt(v', Replace(t, p, AddFirst(At(t, p), name)), k, p + [0]) && OffsetOf(v', k) == OffsetOf(v, k)
  {
    hide Events, Size, Flat, Replace;
    var v', m := ReplaceToks(v, k, k, [Begin(name), EndNode]), AddFirst(At(t, p), name);
    ReplaceAt(t, p, m);
    assert v'.body[..k] == v.body[..k] && v'.body[..k0] == v.body[..k0];
    assert v'.body[k] == Begin(name) && v'.body[k0] == v.body[k0];
    TokIs(v, k);
    TokIs(v', k);
    assert NodeAt(v', Replace(t, p, m), k0, p);
    assert m.children[..0] == [];
    EmptyList();
    ChildAt(v', Replace(t, p, m), k0, p, k, 0);
  }

  lemma EmptyList()
    ensures FlatAll([]) == []
  {
  }

  /** The size test: does an empty node called `name` fit? */
  ghost predicate Fits(s: seq<byte>, name: Name)
    requires HEADER <= |s|
  {
    DataSize(s) + 4 + Align4(|name| + 1) + 4 <= Hdr(s).totalsize
  }

  /** Opens a gap at `offset` and puts an empty node there. */
  method InsertNode(fdt: array<byte>, offset: int, name: Name, ghost v: View) returns (err: int)
    requires Holds(fdt[..], v) && 0 !in name && -8 <= offset <= Size(v.Toks())
    modifies fdt
    ensures err == if old(Fits(fdt[..], name)) then 0 else NOSPACE
    ensures err != 0 ==> fdt[..] == old(fdt[..])
    ensures err == 0 ==> NodeIn(old(fdt[..]), fdt[..], old(Hdr(fdt[..])).offStruct + offset, name)
    ensures HEADER <= fdt.Length && Hdr(fdt[..]).version == old(Hdr(fdt[..])).version
    ensures Grows(old(Hdr(fdt[..])), Hdr(fdt[..]), 0, if err == 0 then 4 + Align4(|name| + 1) + 4 else 0, 0)
  {
    hide Holds, Hdr, Size, Encodes, StructSpliced, Word, RsvEnc;
    Layout(fdt[..], v);
    var h := GetHeader(fdt);
    var z := h.offStruct + offset;
    ghost var s := fdt[..];
    err := SpliceStruct(fdt, z, 0, 4 + Align4(|name| + 1) + 4, v);
    if err == 0 {
      WriteNode(fdt, z, name, s);
      SplicedGrows(s, fdt[..], z, 0, 4 + Align4(|name| + 1) + 4);
    }
  }

  ghost predicate NodeIn(s: seq<byte>, s': seq<byte>, z: int, name: Name) {
    var a := Align4(|name| + 1);
    && StructSpliced(s, s', z, 0, 4 + a + 4) && 0 <= z && z + (4 + a + 4) <= |s'|
    && Encodes(s'[z..z + (4 + a + 4)], [Begin(name), EndNode])
    && Word(s', z) == FDT_BEGIN_NODE && Padded(s', z + 4, name) && Word(s', z + 4 + a) == FDT_END_NODE
  }

  /** fdt_add_subnode_namelen. The parent offset -1 is special: the lookup hands
      it back as "not found", and the node is then written just below the
      structure block. */
  method AddSubnode(fdt: array<byte>, parent: i32, name: Name,
                    ghost v: View, ghost t: Node, ghost k0: int, ghost p: Path)
    returns (r: int, ghost v': View, ghost k: nat)
    requires Holds(fdt[..], v) && DecodesTo(v, t) && Names(v, parent, k0) && 0 !in name
    requires IsNode(v, k0) ==> NodeAt(v, t, k0, p)
    modifies fdt
    ensures parent != -1 ==> Holds(fdt[..], v') && v'.rsv == v.rsv
    ensures parent != -1 && r < 0 ==> v' == v
    ensures parent != -1 && !IsNode(v, k0) ==> r == if parent < 0 then parent else BADOFFSET
    ensures IsNode(v, k0) ==>
      var n := At(t, p);
      if FirstMatch(n.children, name) < |n.children| then r == EXISTS
      else if !old(Fits(fdt[..], name)) then r == NOSPACE
      else
        var t' := Replace(t, p, AddFirst(n, name));
        DecodesTo(v', t') && NodeAt(v', t', k, p + [0]) && r == OffsetOf(v', k)
    ensures HEADER <= fdt.Length && Hdr(fdt[..]).version == 17
    ensures parent != -1 ==>
      Grows(old(Hdr(fdt[..])), Hdr(fdt[..]), 0, if r < 0 then 0 else 4 + Align4(|name| + 1) + 4, 0)
    ensures parent == -1 && !old(Fits(fdt[..], name)) ==> r == NOSPACE && Holds(fdt[..], v)
    ensures parent == -1 && old(Fits(fdt[..], name)) ==> forall w: View, u: Node | Holds(fdt[..], w) :: !DecodesTo(w, u)
    ensures r < 0 ==>
      ((exists w: View :: Holds(fdt[..], w) && w.rsv == v.rsv && DecodesTo(w, t)) <==>
       parent != -1 || !old(Fits(fdt[..], name)))
    ensures parent == -1 && old(Fits(fdt[..], name)) ==>
      r == TRUNCATED && (old(Hdr(fdt[..])).offRsvmap + 16 * |v.rsv| + 16 == old(Hdr(fdt[..])).offStruct
                         ==> forall w: View | w.rsv == v.rsv :: !Holds(fdt[..], w))
  {
    hide Holds, Hdr, Size, Events, Flat, Pre, At, Replace, FirstMatch, NameMatch, Encodes, StructSpliced, TagFrom;
    hide Word, RsvEnc;
    hide DecodesTo, AddFirst, NodeIn, StructOf, NodeAt;
    v', k := v, 0;
    RwCheckHeader(fdt, v);
    Layout(fdt[..], v);
    GrowsAll(old(Hdr(fdt[..])), Hdr(fdt[..]));
    hide Grows;
    var offset, kx := SubnodeOffset(fdt, parent, name, v, t, k0, p);
    if offset >= 0 {
      return EXISTS, v, 0;
    } else if offset != NOTFOUND {
      return offset, v, 0;
    }
    ghost var s := fdt[..];
    Layout(s, v);
    var tag, next := NextTag(fdt, parent, v);
    if parent == -1 {
      NegativeTag(s, v, parent);
      NegativeTag(s, v, next);
      offset := next;
      tag, next := NextTag(fdt, offset, v);
    } else {
      TagAt(s, v, k0);
      offset, k := SkipProperties(fdt, next, v, t, k0, p);
      TokSpan(s, v, k);
    }
    var err := InsertNode(fdt, offset, name, v);
    if err != 0 {
      return err, v, 0;
    }
    r := offset;
    if parent == -1 {
      Below(s, fdt[..], v, name);
    } else {
      v' := ReplaceToks(v, k, k, [Begin(name), EndNode]);
      Added(s, fdt[..], v, t, k0, p, k, name);
    }
  }

  /** The blob with the new node in the gap. */
  lemma Added(s: seq<byte>, s': seq<byte>, v: View, t: Node, k0: nat, p: Path, k: nat, name: Name)
    requires Holds(s, v) && DecodesTo(v, t) && NodeAt(v, t, k0, p) && k0 < k <= |v.body|
    requires EvIdx(v, k) == EvIdx(v, k0) + 1 + |At(t, p).props|
    requires NodeIn(s, s', Pos(s, v, k), name)
    ensures var v', t' := ReplaceToks(v, k, k, [Begin(name), EndNode]), Replace(t, p, AddFirst(At(t, p), name));
      Holds(s', v') && DecodesTo(v', t') && NodeAt(v', t', k, p + [0]) && OffsetOf(v', k) == OffsetOf(v, k)
  {
    hide Holds, Hdr, Size, Events, Flat, Pre, At, Replace, Encodes, StructSpliced, DecodesTo, AddFirst, NodeAt;
    hide ReplaceToks;
    WfOf(s, v);
    StructSpliceHolds(s, s', v, k, k, 4 + Align4(|name| + 1) + 4, [Begin(name), EndNode]);
    AddDecodesNode(v, t, k0, p, k, name);
    NewNodeAt(v, t, k0, p, k, name);
  }

  lemma NegativeTag(s: seq<byte>, v: View, off: int)
    requires Holds(s, v) && off < 0
    ensures TagFrom(StructOf(s), off) == (FDT_END, TRUNCATED)
  {
  }

  /** The word that the structure block then starts with. */
  lemma FirstWord(s: seq<byte>, z: nat, name: Name)
    requires Padded(s, z + 4, name) && 0 !in name && z + 8 + Align4(|name| + 1) <= |s|
    requires Word(s, z + 4 + Align4(|name| + 1)) == FDT_END_NODE
    ensures Word(s, z + 8) == FDT_END_NODE || Word(s, z + 8) == 0 || Word(s, z + 8) > 9
  {
    var a := Align4(|name| + 1);
    if |name| == 4 {
      assert forall j | z + 8 <= j < z + 12 :: s[j] == 0;
    } else if |name| > 4 {
      assert s[z + 8] == s[z + 4..z + 4 + |name|][4] == name[4];
    } else {
      assert a == 4;
    }
  }

  /** A structure block that starts with an end tag or no tag is no tree. */
  lemma NoTree(s: seq<byte>, w: View, u: Node)
    requires Holds(s, w)
    requires var x := Word(s, Hdr(s).offStruct); x == FDT_END_NODE || x == 0 || x > 9
    ensures !DecodesTo(w, u)
  {
    hide Word, Hdr, Holds, Events, Size, Encodes;
    WfOf(s, w);
    StructFacts(s, w);
    TokenAt(StructOf(s), w.Toks(), 0);
    FirstTag(s, w);
    if w.body != [] {
      Cursor(w, 0);
      CursorEnds(w);
    }
  }

  lemma FirstTag(s: seq<byte>, w: View)
    requires Holds(s, w)
    ensures Word(s, Hdr(s).offStruct) == TagOf(w.Toks()[0])
  {
    hide Word, Hdr, Encodes;
    StructFacts(s, w);
    TokenAt(StructOf(s), w.Toks(), 0);
    var h, n := Hdr(s), TokLen(w.Toks()[0]);
    WordAtSlice(StructOf(s), 0, n, 0);
    WordAtSlice(s, h.offStruct, h.sizeStruct, 0);
  }

  /** With the node written eight bytes below it, the structure block no longer starts
      with a node, whatever lies in between. */
  lemma StructureLost(s: seq<byte>, s': seq<byte>, v: View, name: Name)
    requires Holds(s, v) && 0 !in name && StructSpliced(s, s', Hdr(s).offStruct - 8, 0, 4 + Align4(|name| + 1) + 4)
    requires Padded(s', Hdr(s).offStruct - 4, name) && Hdr(s).offStruct + Align4(|name| + 1) <= |s'|
    requires Word(s', Hdr(s).offStruct - 4 + Align4(|name| + 1)) == FDT_END_NODE
    ensures forall w: View, u: Node | Holds(s', w) :: !DecodesTo(w, u)
  {
    hide Word, Hdr, Holds, DecodesTo, Padded;
    var o := Hdr(s).offStruct;
    FirstWord(s', o - 8, name);
    assert Hdr(s').offStruct == o;
    forall w: View, u: Node | Holds(s', w)
      ensures !DecodesTo(w, u)
    {
      NoTree(s', w, u);
    }
  }

  lemma Below(s: seq<byte>, s': seq<byte>, v: View, name: Name)
    requires Holds(s, v) && 0 !in name && NodeIn(s, s', Hdr(s).offStruct - 8, name)
    ensures forall w: View, u: Node | Holds(s', w) :: !DecodesTo(w, u)
    ensures Hdr(s).offRsvmap + 16 * |v.rsv| + 16 == Hdr(s).offStruct ==>
      forall w: View | w.rsv == v.rsv :: !Holds(s', w)
  {
    hide Holds, DecodesTo, Hdr, StructSpliced, Word, Encodes, Padded;
    StructureLost(s, s', v, name);
    TerminatorLost(s, s', v, 4 + Align4(|name| + 1) + 4);
  }

  /** Writing a node over the last eight bytes of the reserve map destroys its
      terminator. */
  lemma TerminatorLost(s: seq<byte>, s': seq<byte>, v: View, nodelen: nat)
    requires Holds(s, v) && nodelen >= 12 && StructSpliced(s, s', Hdr(s).offStruct - 8, 0, nodelen)
    requires Word(s', Hdr(s).offStruct - 8) == FDT_BEGIN_NODE
    ensures Hdr(s).offRsvmap + 16 * |v.rsv| + 16 == Hdr(s).offStruct ==>
      forall w: View | w.rsv == v.rsv :: !Holds(s', w)
  {
    hide Word, Encodes, Hdr;
    forall w: View | w.rsv == v.rsv && Hdr(s).offRsvmap + 16 * |v.rsv| + 16 == Hdr(s).offStruct
      ensures !Holds(s', w)
    {
      if Holds(s', w) {
        var o, n := Hdr(s').offRsvmap, 16 * |v.rsv| + 16;
        assert o == Hdr(s).offRsvmap;
        WordAtSlice(s', o, n, n - 8);
      }
    }
  }
}
