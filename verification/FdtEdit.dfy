/** The read-write edits of fdt_rw.c. Each is proved to commute with decoding:
    success performs exactly the named edit of the abstract tree or map, and
    every error return leaves the decoded tree and map as they were. */
module FdtEdit {
  import opened Memory
  import opened FdtBytes
  import opened FdtTree
  import opened FdtFormat
  import opened FdtBlob
  import opened FdtWalk
  import opened FdtLookup
  import opened FdtSplice

  // ----- From token edits to tree edits

  /** Replacing a stretch of one node's tokens replaces that node in the tree. */
  lemma NodeEdit(v: View, t: Node, k0: nat, p: Path, m: Node, a: nat, b: nat, us: seq<Token>,
                 x: seq<Event>, y: seq<Event>, y': seq<Event>, z: seq<Event>)
    requires DecodesTo(v, t) && NodeAt(v, t, k0, p) && a <= b <= |v.body|
    requires Flat(At(t, p)) == x + y + z && Flat(m) == x + y' + z
    requires EvIdx(v, a) == EvIdx(v, k0) + |x| && EvIdx(v, b) == EvIdx(v, a) + |y|
    requires Events(us, v.strs) == y'
    ensures DecodesTo(ReplaceToks(v, a, b, us), Replace(t, p, m))
  {
    hide Flat, Pre, Post, At, Events, Replace;
    SpliceEvents(v, a, b, us);
    FlatAt(t, p);
    FlatReplace(t, p, m);
    Around(v.Ev(), Pre(t, p), x, y, y', z, Post(t, p));
  }

  lemma Around<T>(s: seq<T>, pre: seq<T>, x: seq<T>, y: seq<T>, y': seq<T>, z: seq<T>, post: seq<T>)
    requires s == pre + (x + y + z) + post
    ensures pre + (x + y' + z) + post == s[..|pre| + |x|] + y' + s[|pre| + |x| + |y|..]
  {
    assert s[..|pre| + |x|] == pre + x;
    assert s[|pre| + |x| + |y|..] == z + post;
  }

  lemma FlatProps(n: Node, a: seq<Property>, b: seq<Property>, c: seq<Property>)
    requires n.props == a + b + c
    ensures Flat(n) ==
      ([EBegin(n.name)] + PropEvents(a)) + PropEvents(b) + (PropEvents(c) + FlatAll(n.children) + [EEnd])
  {
    assert PropEvents(n.props) == PropEvents(a) + PropEvents(b) + PropEvents(c);
  }

  /** Replacing the tokens of the properties `ps` of a node. */
  lemma PropsEdit(v: View, t: Node, k0: nat, p: Path, a: nat, b: nat, us: seq<Token>,
                  before: seq<Property>, ps: seq<Property>, ps': seq<Property>, after: seq<Property>)
    requires DecodesTo(v, t) && NodeAt(v, t, k0, p) && a <= b <= |v.body|
    requires At(t, p).props == before + ps + after
    requires EvIdx(v, a) == EvIdx(v, k0) + 1 + |before| && EvIdx(v, b) == EvIdx(v, a) + |ps|
    requires Events(us, v.strs) == PropEvents(ps')
    ensures DecodesTo(ReplaceToks(v, a, b, us), Replace(t, p, At(t, p).(props := before + ps' + after)))
  {
    hide Flat, Pre, At, Events, Replace;
    var n := At(t, p);
    var m := n.(props := before + ps' + after);
    FlatProps(n, before, ps, after);
    FlatProps(m, before, ps', after);
    NodeEdit(v, t, k0, p, m, a, b, us, [EBegin(n.name)] + PropEvents(before), PropEvents(ps), PropEvents(ps'),
             PropEvents(after) + FlatAll(n.children) + [EEnd]);
  }

  // ----- Writing tokens into a gap

  lemma PutBytesEffect(s: seq<byte>, i: nat, b: seq<byte>)
    requires i + |b| <= |s|
    ensures PutBytes(s, i, b)[i..i + |b|] == b
    ensures forall j: nat | j + 4 <= i || (i + |b| <= j && j + 4 <= |s|) :: Word(PutBytes(s, i, b), j) == Word(s, j)
  {
  }

  lemma PropEncoded(s: seq<byte>, z: nat, nameoff: u32, value: seq<byte>)
    requires z + 12 + Align4(|value|) <= |s|
    requires Word(s, z) == FDT_PROP && Word(s, z + 4) == |value| && Word(s, z + 8) == nameoff
    requires s[z + 12..z + 12 + |value|] == value
    ensures TokEnc(s[z..z + TokLen(Prop(nameoff, value))], Prop(nameoff, value))
  {
    hide Word;
    var n := TokLen(Prop(nameoff, value));
    WordAtSlice(s, z, n, 0);
    WordAtSlice(s, z, n, 4);
    WordAtSlice(s, z, n, 8);
    SliceSlice(s, z, z + n, 12, 12 + |value|);
  }

  lemma BeginEncoded(s: seq<byte>, z: nat, name: Name)
    requires z + TokLen(Begin(name)) <= |s| && Word(s, z) == FDT_BEGIN_NODE
    requires s[z + 4..z + 4 + |name|] == name && s[z + 4 + |name|] == 0 && 0 !in name
    ensures TokEnc(s[z..z + TokLen(Begin(name))], Begin(name))
  {
    hide Word;
    var n := TokLen(Begin(name));
    WordAtSlice(s, z, n, 0);
    SliceSlice(s, z, z + n, 4, 4 + |name|);
    assert s[z..z + n][4 + |name|] == s[z + 4 + |name|];
  }

  // ----- fdt_delprop

  /** The first property of that name. */
  function FirstOf(n: Node, name: Name): Property
    requires FirstProp(n.props, name) < |n.props|
  {
    n.props[FirstProp(n.props, name)]
  }

  method DelProp(fdt: array<byte>, nodeoffset: i32, name: Name,
                 ghost v: View, ghost t: Node, ghost k0: int, ghost p: Path)
    returns (err: int, ghost v': View)
    requires Holds(fdt[..], v) && DecodesTo(v, t) && Names(v, nodeoffset, k0)
    requires IsNode(v, k0) ==> NodeAt(v, t, k0, p)
    modifies fdt
    ensures Holds(fdt[..], v') && v'.rsv == v.rsv
    ensures err == if !IsNode(v, k0) then BADOFFSET
                   else if FirstProp(At(t, p).props, name) == |At(t, p).props| then NOTFOUND
                   else 0
    ensures err != 0 ==> v' == v
    ensures err == 0 ==>
      var n := At(t, p);
      var i := FirstProp(n.props, name);
      DecodesTo(v', Replace(t, p, n.(props := n.props[..i] + n.props[i + 1..])))
    ensures HEADER <= fdt.Length && Hdr(fdt[..]).version == 17 && v'.strs == v.strs
    ensures err != 0 ==> Grows(old(Hdr(fdt[..])), Hdr(fdt[..]), 0, 0, 0)
    ensures err == 0 ==>
      && Grows(old(Hdr(fdt[..])), Hdr(fdt[..]), 0, -12 - Align4(|FirstOf(At(t, p), name).value|), 0)
      && k0 < |v'.body| && v'.body[..k0 + 1] == v.body[..k0 + 1]
  {
    hide Holds, Hdr, Size, Events, Flat, Pre, FirstProp, NameAt, At, Replace, Encodes, StructSpliced;
    v' := v;
    RwCheckHeader(fdt, v);
    Layout(fdt[..], v);
    GrowsAll(old(Hdr(fdt[..])), Hdr(fdt[..]));
    hide Grows;
    var r, len, k := GetProperty(fdt, nodeoffset, name, v, t, k0, p);
    if r < 0 {
      return len, v;
    }
    ghost var s := fdt[..];
    Layout(s, v);
    ghost var n := At(t, p);
    ghost var i := FirstProp(n.props, name);
    TokSpan(s, v, k);
    var h := GetHeader(fdt);
    err := SpliceStruct(fdt, h.offStruct + r, 12 + Align4(len), 0, v);
    SplicedGrows(s, fdt[..], Pos(s, v, k), 12 + Align4(len), 0);
    assert s[Pos(s, v, k)..Pos(s, v, k)] == [];
    EmptyGap(fdt[..], Pos(s, v, k));
    StructSpliceHolds(s, fdt[..], v, k, k + 1, 0, []);
    v' := ReplaceToks(v, k, k + 1, []);
    Cursor(v, k);
    assert n.props == n.props[..i] + [n.props[i]] + n.props[i + 1..];
    NoEvents(v.strs);
    PropsEdit(v, t, k0, p, k, k + 1, [], n.props[..i], [n.props[i]], [], n.props[i + 1..]);
    assert n.props[..i] + [] + n.props[i + 1..] == n.props[..i] + n.props[i + 1..];
  }

  lemma NoEvents(strs: seq<byte>)
    ensures Events([], strs) == PropEvents([])
  {
  }

  lemma EmptyGap(s: seq<byte>, z: nat)
    requires z <= |s|
    ensures Encodes(s[z..z + 0], [])
  {
    assert s[z..z + 0] == [];
  }

  /** Token `k` lies inside the structure block. */
  lemma TokSpan(s: seq<byte>, v: View, k: nat)
    requires Holds(s, v) && k < |v.body|
    ensures Pos(s, v, k + 1) == Pos(s, v, k) + TokLen(v.body[k])
    ensures HEADER <= Hdr(s).offStruct <= Pos(s, v, k)
    ensures Pos(s, v, k + 1) <= Hdr(s).offStruct + Hdr(s).sizeStruct <= |s|
  {
    Layout(s, v);
    TokIs(v, k);
    TagAt(s, v, k);
  }

  // ----- fdt_set_name

  method SetName(fdt: array<byte>, nodeoffset: i32, name: Name,
                 ghost v: View, ghost t: Node, ghost k0: int, ghost p: Path)
    returns (err: int, ghost v': View)
    requires Holds(fdt[..], v) && DecodesTo(v, t) && Names(v, nodeoffset, k0) && 0 !in name
    requires IsNode(v, k0) ==> NodeAt(v, t, k0, p)
    modifies fdt
    ensures Holds(fdt[..], v') && v'.rsv == v.rsv
    ensures err == if !IsNode(v, k0) then BADOFFSET
                   else if old(DataSize(fdt[..])) - Align4(|v.body[k0].name| + 1) + Align4(|name| + 1)
                           > old(Hdr(fdt[..])).totalsize then NOSPACE
                   else 0
    ensures err != 0 ==> v' == v
    ensures err == 0 ==> DecodesTo(v', Replace(t, p, At(t, p).(name := name)))
    ensures HEADER <= fdt.Length && Hdr(fdt[..]).version == 17
    ensures err != 0 ==> Grows(old(Hdr(fdt[..])), Hdr(fdt[..]), 0, 0, 0)
    ensures err == 0 ==>
      Grows(old(Hdr(fdt[..])), Hdr(fdt[..]), 0, Align4(|name| + 1) - Align4(|v.body[k0].name| + 1), 0)
  {
    hide Holds, Hdr, Size, Events, Flat, Pre, At, Replace, Encodes, Word, TokEnc, IsStr, StructSpliced, PutBytes;
    hide ReadsAs, TagFrom, StructOf;
    v' := v;
    RwCheckHeader(fdt, v);
    Layout(fdt[..], v);
    GrowsAll(old(Hdr(fdt[..])), Hdr(fdt[..]));
    hide Grows;
    var r := CheckNodeOffset(fdt, nodeoffset, v, k0);
    if r < 0 {
      return r, v;
    }
    ghost var s := fdt[..];
    Layout(s, v);
    TokSpan(s, v, k0);
    NodeBytes(s, v, k0);
    var h := GetHeader(fdt);
    var z := h.offStruct + nodeoffset;
    var oldlen := Strlen(fdt, z + 4, v.body[k0].name);
    ghost var oldn, newn := Align4(oldlen + 1), Align4(|name| + 1);
    err := SpliceStruct(fdt, z + 4, Align4(oldlen + 1), Align4(|name| + 1), v);
    if err != 0 {
      return err, v;
    }
    ghost var s1 := fdt[..];
    GapBounds(s, s1, z + 4, oldn, newn);
    Memcpy(fdt, z + 4, name + [0]);
    SetNameEncoded(s, s1, v, k0, name);
    SplicedGrows(s, fdt[..], Pos(s, v, k0), 4 + oldn, 4 + newn);
    StructSpliceHolds(s, fdt[..], v, k0, k0 + 1, 4 + newn, [Begin(name)]);
    v' := ReplaceToks(v, k0, k0 + 1, [Begin(name)]);
    SetNameDecodes(v, t, k0, p, name);
  }

  /** strlen of a stored C string. */
  method Strlen(fdt: array<byte>, z: nat, ghost name: Name) returns (n: nat)
    requires IsStr(fdt[..], z, name)
    ensures n == |name|
  {
    StrChars(fdt[..], z, name);
    n := 0;
    assert fdt[..][z + |name|] == 0;
    while fdt[z + n] != 0
      invariant n <= |name|
      decreases |name| - n
    {
      n := n + 1;
    }
    assert fdt[..][z + n] == 0;
  }

  lemma SetNameEncoded(s: seq<byte>, s1: seq<byte>, v: View, k0: nat, name: Name)
    requires Holds(s, v) && IsNode(v, k0) && 0 !in name
    requires StructSpliced(s, s1, Pos(s, v, k0) + 4, Align4(|v.body[k0].name| + 1), Align4(|name| + 1))
    ensures var z, n := Pos(s, v, k0), 4 + Align4(|name| + 1);
      && Pos(s, v, k0 + 1) == z + 4 + Align4(|v.body[k0].name| + 1)
      && z + 4 + |name| + 1 <= |s1|
      && StructSpliced(s, PutBytes(s1, z + 4, name + [0]), z, Pos(s, v, k0 + 1) - z, n)
      && Encodes(PutBytes(s1, z + 4, name + [0])[z..z + n], [Begin(name)])
  {
    hide Holds, Size, Hdr, Word, Encodes, TokEnc, StructSpliced, PutBytes;
    Layout(s, v);
    var z, oldn, newn := Pos(s, v, k0), Align4(|v.body[k0].name| + 1), Align4(|name| + 1);
    TokSpan(s, v, k0);
    NodeWord(s, v, k0);
    StructBelow(s, s1, z + 4, oldn, newn, z);
    StructWiden(s, s1, z + 4, oldn, newn, 4);
    StructWrite(s, s1, z, 4 + oldn, 4 + newn, z + 4, name + [0]);
    GapBounds(s, s1, z, 4 + oldn, 4 + newn);
    var s2 := PutBytes(s1, z + 4, name + [0]);
    PutBytesEffect(s1, z + 4, name + [0]);
    WrittenName(s1, z + 4, name);
    BeginEncoded(s2, z, name);
    EncodesOne(s2[z..z + 4 + newn], Begin(name));
  }

  lemma WrittenName(s: seq<byte>, z: nat, name: Name)
    requires z + |name| + 1 <= |s|
    ensures var r := PutBytes(s, z, name + [0]); r[z..z + |name|] == name && r[z + |name|] == 0
  {
  }

  lemma NodeWord(s: seq<byte>, v: View, k: nat)
    requires Holds(s, v) && k < |v.body|
    ensures HEADER <= Pos(s, v, k) <= Pos(s, v, k) + 4 <= Pos(s, v, k + 1) <= |s|
    ensures Word(s, Pos(s, v, k)) == TagOf(v.body[k])
  {
    hide Holds, Hdr, Size, Word, Encodes;
    TokSpan(s, v, k);
    TokIs(v, k);
    StructFacts(s, v);
    TokenAt(StructOf(s), v.Toks(), k);
    var o, z, n := Hdr(s).offStruct, OffsetOf(v, k), TokLen(v.body[k]);
    SliceSlice(s, o, o + Hdr(s).sizeStruct, z, z + n);
    WordAtSlice(s, o + z, n, 0);
  }

  lemma SetNameDecodes(v: View, t: Node, k0: nat, p: Path, name: Name)
    requires WfView(v) && DecodesTo(v, t) && NodeAt(v, t, k0, p)
    ensures DecodesTo(ReplaceToks(v, k0, k0 + 1, [Begin(name)]), Replace(t, p, At(t, p).(name := name)))
  {
    hide Pre, At, Replace, Events;
    var n := At(t, p);
    var m := n.(name := name);
    Cursor(v, k0);
    EventsOne(Begin(name), v.strs);
    var rest := PropEvents(n.props) + FlatAll(n.children) + [EEnd];
    assert Flat(n) == [] + [EBegin(n.name)] + rest;
    assert Flat(m) == [] + [EBegin(name)] + rest;
    NodeEdit(v, t, k0, p, m, k0, k0 + 1, [Begin(name)], [], [EBegin(n.name)], [EBegin(name)], rest);
  }

  // ----- fdt_del_node

  method DelNode(fdt: array<byte>, nodeoffset: i32,
                 ghost v: View, ghost t: Node, ghost k0: int, ghost p: Path)
    returns (err: int, ghost v': View)
    requires Holds(fdt[..], v) && DecodesTo(v, t) && Names(v, nodeoffset, k0)
    requires IsNode(v, k0) ==> NodeAt(v, t, k0, p)
    modifies fdt
    ensures Holds(fdt[..], v') && v'.rsv == v.rsv
    ensures err < 0 <==> !IsNode(v, k0)
    ensures err != 0 ==> err < 0 && v' == v
    ensures err == 0 && p != [] ==> DecodesTo(v', Delete(t, p))
    ensures err == 0 && p == [] ==> v'.Ev() == []
    ensures HEADER <= fdt.Length && Hdr(fdt[..]).version == 17
    ensures Grows(old(Hdr(fdt[..])), Hdr(fdt[..]), 0, Size(v'.Toks()) - Size(v.Toks()), 0)
  {
    hide Holds, Hdr, Size, Events, Flat, Pre, At, Delete, Encodes, StructSpliced;
    v' := v;
    RwCheckHeader(fdt, v);
    Layout(fdt[..], v);
    GrowsAll(old(Hdr(fdt[..])), Hdr(fdt[..]));
    hide Grows;
    var end, k := NodeEndOffset(fdt, nodeoffset, v, t, k0, p);
    if end < 0 {
      return end, v;
    }
    ghost var s := fdt[..];
    Layout(s, v);
    TokSpan(s, v, k0);
    TokSpan(s, v, k - 1);
    SizeMonotone(v.Toks(), k0, k);
    var h := GetHeader(fdt);
    err := SpliceStruct(fdt, h.offStruct + nodeoffset, end - nodeoffset, 0, v);
    SplicedGrows(s, fdt[..], Pos(s, v, k0), end - nodeoffset, 0);
    EmptyGap(fdt[..], Pos(s, v, k0));
    StructSpliceHolds(s, fdt[..], v, k0, k, 0, []);
    v' := ReplaceToks(v, k0, k, []);
    StructSizes(s, fdt[..], v, v');
    NoEvents(v.strs);
    DelNodeDecodes(v, t, k0, p, k, []);
  }

  lemma StructSizes(s: seq<byte>, s': seq<byte>, v: View, v': View)
    requires Holds(s, v) && Holds(s', v')
    ensures Hdr(s).sizeStruct == Size(v.Toks()) && Hdr(s').sizeStruct == Size(v'.Toks())
  {
    hide Hdr, Size;
  }

  /** Dropping a node's whole stretch of tokens deletes the node. */
  lemma DelNodeDecodes(v: View, t: Node, k0: nat, p: Path, k: nat, us: seq<Token>)
    requires DecodesTo(v, t) && NodeAt(v, t, k0, p) && k0 <= k <= |v.body|
    requires EvIdx(v, k) == EvIdx(v, k0) + |Flat(At(t, p))| && Events(us, v.strs) == []
    ensures var v' := ReplaceToks(v, k0, k, us);
      if p == [] then v'.Ev() == [] else DecodesTo(v', Delete(t, p))
  {
    hide Flat, Pre, Post, At, Events, Delete;
    SpliceEvents(v, k0, k, us);
    FlatAt(t, p);
    if p == [] {
      RootAlone(t);
      assert v.Ev()[..EvIdx(v, k0)] == [] && v.Ev()[EvIdx(v, k)..] == [];
    } else {
      FlatDelete(t, p);
      assert v.Ev()[..EvIdx(v, k0)] == Pre(t, p) && v.Ev()[EvIdx(v, k)..] == Post(t, p);
    }
  }

  lemma RootAlone(t: Node)
    ensures Pre(t, []) == [] && Post(t, []) == [] && At(t, []) == t
  {
  }

  // ----- fdt_setprop

  /** The tree edit: overwrite the first property of that name, or put a new
      property in front of the others. */
  function SetProperty(n: Node, name: Name, value: seq<byte>): Node {
    var i := FirstProp(n.props, name);
    if i < |n.props| then n.(props := n.props[i := Property(name, value)])
    else n.(props := [Property(name, value)] + n.props)
  }

  /** Bytes of strings block that storing `name` needs. */
  ghost function StringGrowth(strs: seq<byte>, name: Name): nat {
    if exists off: nat :: IsStr(strs, off, name) then 0 else |name| + 1
  }

  lemma Growth(strs: seq<byte>, name: Name)
    ensures (forall off: nat :: !IsStr(strs, off, name)) ==> StringGrowth(strs, name) == |name| + 1
    ensures forall off: nat | IsStr(strs, off, name) :: StringGrowth(strs, name) == 0
  {
  }

  method SetProp(fdt: array<byte>, nodeoffset: i32, name: Name, value: seq<byte>,
                 ghost v: View, ghost t: Node, ghost k0: int, ghost p: Path)
    returns (err: int, ghost v': View)
    requires Holds(fdt[..], v) && DecodesTo(v, t) && Names(v, nodeoffset, k0) && 0 !in name
    requires IsNode(v, k0) ==> NodeAt(v, t, k0, p)
    requires |value| < TWO31 - 16
    modifies fdt
    ensures Holds(fdt[..], v') && v'.rsv == v.rsv
    ensures !IsNode(v, k0) ==> err == BADOFFSET
    ensures IsNode(v, k0) ==>
      var n := At(t, p);
      var i := FirstProp(n.props, name);
      var need := if i < |n.props| then Align4(|value|) - Align4(|n.props[i].value|)
                  else StringGrowth(v.strs, name) + 12 + Align4(|value|);
      err == if old(DataSize(fdt[..])) + need > old(Hdr(fdt[..])).totalsize then NOSPACE else 0
    ensures err != 0 ==> DecodesTo(v', t)
    ensures err == 0 ==> DecodesTo(v', Replace(t, p, SetProperty(At(t, p), name, value)))
    ensures HEADER <= fdt.Length && Hdr(fdt[..]).version == 17
    ensures err != 0 ==> Grows(old(Hdr(fdt[..])), Hdr(fdt[..]), 0, 0, |v'.strs| - |v.strs|)
    ensures err == 0 ==>
      var i := FirstProp(At(t, p).props, name);
      if i < |At(t, p).props|
      then Grows(old(Hdr(fdt[..])), Hdr(fdt[..]), 0, Align4(|value|) - Align4(|At(t, p).props[i].value|), 0)
      else Grows(old(Hdr(fdt[..])), Hdr(fdt[..]), 0, 12 + Align4(|value|), StringGrowth(v.strs, name))
  {
    hide Holds, Hdr, Size, Events, Flat, Pre, At, Replace, FirstProp, NameAt, StringGrowth, DecodesTo;
    v' := v;
    RwCheckHeader(fdt, v);
    Layout(fdt[..], v);
    GrowsAll(old(Hdr(fdt[..])), Hdr(fdt[..]));
    hide Grows;
    var r, len, k := GetProperty(fdt, nodeoffset, name, v, t, k0, p);
    if r >= 0 {
      err, v' := ResizeProperty(fdt, r, len, value, v, t, k0, p, k, FirstProp(At(t, p).props, name));
      return;
    }
    if len != NOTFOUND {
      return len, v;
    }
    err, v' := AddProperty(fdt, nodeoffset, name, value, v, t, k0, p);
  }

  /** _fdt_resize_property once the property is found, and the final memcpy. */
  method ResizeProperty(fdt: array<byte>, propoffset: nat, oldlen: nat, value: seq<byte>,
                        ghost v: View, ghost t: Node, ghost k0: nat, ghost p: Path, ghost k: nat, ghost i: nat)
    returns (err: int, ghost v': View)
    requires Holds(fdt[..], v) && DecodesTo(v, t) && NodeAt(v, t, k0, p)
    requires PropAt(v, k0, k, At(t, p), i) && propoffset == OffsetOf(v, k) && oldlen == |At(t, p).props[i].value|
    requires |value| < TWO31 - 16
    modifies fdt
    ensures Holds(fdt[..], v') && v'.rsv == v.rsv
    ensures err == if old(DataSize(fdt[..])) - Align4(oldlen) + Align4(|value|) > old(Hdr(fdt[..])).totalsize
      then NOSPACE else 0
    ensures err != 0 ==> v' == v
    ensures err == 0 ==>
      var n := At(t, p); DecodesTo(v', Replace(t, p, n.(props := n.props[i := Property(n.props[i].name, value)])))
    ensures HEADER <= fdt.Length && Hdr(fdt[..]).version == old(Hdr(fdt[..])).version
    ensures Grows(old(Hdr(fdt[..])), Hdr(fdt[..]), 0, if err == 0 then Align4(|value|) - Align4(oldlen) else 0, 0)
  {
    hide Holds, Hdr, Size, Events, Flat, Pre, At, Replace, Encodes, NameAt, DecodesTo, Word, StructSpliced, PutBytes;
    hide PutWord, Terminated;
    ghost var s := fdt[..];
    Layout(s, v);
    TokSpan(s, v, k);
    PropWords(s, v, k);
    var h := GetHeader(fdt);
    var z := h.offStruct + propoffset;
    err := SpliceStruct(fdt, z + 12, Align4(oldlen), Align4(|value|), v);
    if err != 0 {
      return err, v;
    }
    ghost var s1 := fdt[..];
    GapBounds(s, s1, z + 12, Align4(oldlen), Align4(|value|));
    StoreWord(fdt, z + 4, |value|);
    Memcpy(fdt, z + 12, value);
    ResizeEncoded(s, s1, v, k, value);
    SplicedGrows(s, fdt[..], z, 12 + Align4(oldlen), 12 + Align4(|value|));
    ghost var u := Prop(v.body[k].nameoff, value);
    StructSpliceHolds(s, fdt[..], v, k, k + 1, 12 + Align4(|value|), [u]);
    v' := ReplaceToks(v, k, k + 1, [u]);
    ResizeDecodes(v, t, k0, p, k, i, value);
  }

  lemma ResizeEncoded(s: seq<byte>, s1: seq<byte>, v: View, k: nat, value: seq<byte>)
    requires Holds(s, v) && k < |v.body| && v.body[k].Prop? && |value| < TWO32
    requires StructSpliced(s, s1, Pos(s, v, k) + 12, Align4(|v.body[k].value|), Align4(|value|))
    ensures Pos(s, v, k) + 12 + Align4(|value|) <= |s1|
    ensures var z, n := Pos(s, v, k), 12 + Align4(|value|);
      var s3 := PutBytes(PutWord(s1, z + 4, |value|), z + 12, value);
      && StructSpliced(s, s3, z, Pos(s, v, k + 1) - z, n)
      && Encodes(s3[z..z + n], [Prop(v.body[k].nameoff, value)])
      && Resolvable([Prop(v.body[k].nameoff, value)], v.strs)
  {
    hide Holds, Hdr, Size, Word, Terminated, Encodes, StructSpliced, PutBytes, TokEnc;
    Layout(s, v);
    var z, oldn, newn := Pos(s, v, k), Align4(|v.body[k].value|), Align4(|value|);
    TokSpan(s, v, k);
    PropWords(s, v, k);
    StructBelow(s, s1, z + 12, oldn, newn, z);
    StructBelow(s, s1, z + 12, oldn, newn, z + 8);
    StructWiden(s, s1, z + 12, oldn, newn, 12);
    GapBounds(s, s1, z, 12 + oldn, 12 + newn);
    var s2 := PutWord(s1, z + 4, |value|);
    StructWrite(s, s1, z, 12 + oldn, 12 + newn, z + 4, EncWord(|value|));
    PutWordEffect(s1, z + 4, |value|);
    var s3 := PutBytes(s2, z + 12, value);
    StructWrite(s, s2, z, 12 + oldn, 12 + newn, z + 12, value);
    PutBytesEffect(s2, z + 12, value);
    PropEncoded(s3, z, v.body[k].nameoff, value);
    EncodesOne(s3[z..z + 12 + newn], Prop(v.body[k].nameoff, value));
  }

  lemma ResizeDecodes(v: View, t: Node, k0: nat, p: Path, k: nat, i: nat, value: seq<byte>)
    requires WfView(v) && DecodesTo(v, t) && NodeAt(v, t, k0, p) && PropAt(v, k0, k, At(t, p), i)
    ensures var n := At(t, p); DecodesTo(ReplaceToks(v, k, k + 1, [Prop(v.body[k].nameoff, value)]),
      Replace(t, p, n.(props := n.props[i := Property(n.props[i].name, value)])))
  {
    hide Flat, Pre, At, Replace, Events, NameAt;
    var n := At(t, p);
    var u, q := Prop(v.body[k].nameoff, value), Property(n.props[i].name, value);
    Cursor(v, k);
    EventsOne(u, v.strs);
    assert PropEvents([q]) == [EProp(q.name, q.value)];
    assert n.props == n.props[..i] + [n.props[i]] + n.props[i + 1..];
    assert n.props[i := q] == n.props[..i] + [q] + n.props[i + 1..];
    PropsEdit(v, t, k0, p, k, k + 1, [u], n.props[..i], [n.props[i]], [q], n.props[i + 1..]);
  }

  /** _fdt_find_string over the strings block `strs` at `base`: the first place
      where the name and its NUL are stored, possibly as the tail of another name. */
  method FindString(fdt: array<byte>, base: nat, strs: seq<byte>, name: Name) returns (r: int)
    requires base + |strs| <= fdt.Length && fdt[base..base + |strs|] == strs && 0 !in name
    ensures r < 0 ==> forall off: nat :: !IsStr(strs, off, name)
    ensures r >= 0 ==> IsStr(strs, r, name) && forall off: nat | off < r :: !IsStr(strs, off, name)
  {
    var len := |name| + 1;
    var last := |strs| - len;
    var p := 0;
    while p <= last
      invariant 0 <= p && (p <= last + 1 || p == 0)
      invariant forall off: nat | off < p :: !IsStr(strs, off, name)
      decreases last - p
    {
      StoredName(strs, p, name);
      if fdt[base + p..base + p + len] == name + [0] {
        SliceSlice(fdt[..], base, base + |strs|, p, p + len);
        assert fdt[..][base..base + |strs|] == strs;
        return p;
      }
      SliceSlice(fdt[..], base, base + |strs|, p, p + len);
      assert fdt[..][base..base + |strs|] == strs;
      p := p + 1;
    }
    r := -1;
  }

  lemma StoredName(strs: seq<byte>, p: nat, name: Name)
    requires p + |name| + 1 <= |strs| && 0 !in name
    ensures IsStr(strs, p, name) <==> strs[p..p + |name| + 1] == name + [0]
  {
    assert strs[p..p + |name| + 1] == strs[p..p + |name|] + [strs[p + |name|]];
    if strs[p..p + |name| + 1] == name + [0] {
      assert strs[p..p + |name|] == (name + [0])[..|name|] == name;
      assert strs[p + |name|] == (name + [0])[|name|];
    }
  }

  /** _fdt_find_add_string. */
  method FindAddString(fdt: array<byte>, name: Name, ghost v: View) returns (r: int, ghost v': View)
    requires Holds(fdt[..], v) && 0 !in name
    modifies fdt
    ensures Holds(fdt[..], v')
    ensures r < 0 <==> old(DataSize(fdt[..])) + StringGrowth(v.strs, name) > old(Hdr(fdt[..])).totalsize
    ensures r < 0 ==> r == NOSPACE && v' == v
    ensures r >= 0 ==> IsStr(v'.strs, r, name) && (v' == v || v' == v.(strs := v.strs + (name + [0])))
    ensures v'.Ev() == v.Ev()
    ensures r >= 0 ==> DataSize(fdt[..]) == old(DataSize(fdt[..])) + StringGrowth(v.strs, name)
    ensures HEADER <= fdt.Length && Hdr(fdt[..]).version == old(Hdr(fdt[..])).version
    ensures Grows(old(Hdr(fdt[..])), Hdr(fdt[..]), 0, 0, |v'.strs| - |v.strs|)
    ensures r >= 0 ==> |v'.strs| == |v.strs| + StringGrowth(v.strs, name)
  {
    hide Holds, Hdr, Events, Spliced, IsStr, PutBytes, WfView, StringGrowth;
    ghost var s := fdt[..];
    Layout(s, v);
    StringsBlock(s, v);
    Growth(v.strs, name);
    var h := GetHeader(fdt);
    var p := FindString(fdt, h.offStrings, fdt[h.offStrings..h.offStrings + h.sizeStrings], name);
    if p >= 0 {
      return p, v;
    }
    var err := AppendString(fdt, name, v);
    if err != 0 {
      return err, v;
    }
    AppendedName(v.strs, name);
    return h.sizeStrings, v.(strs := v.strs + (name + [0]));
  }

  /** The name goes to the end of the strings block. */
  method AppendString(fdt: array<byte>, name: Name, ghost v: View) returns (err: int)
    requires Holds(fdt[..], v) && 0 !in name
    modifies fdt
    ensures err == if old(DataSize(fdt[..])) + |name| + 1 > old(Hdr(fdt[..])).totalsize then NOSPACE else 0
    ensures err != 0 ==> fdt[..] == old(fdt[..])
    ensures err == 0 ==> var w := v.(strs := v.strs + (name + [0])); Holds(fdt[..], w) && w.Ev() == v.Ev()
    ensures err == 0 ==>
      && HEADER <= fdt.Length && old(Hdr(fdt[..])).sizeStrings + |name| + 1 < TWO32
      && Hdr(fdt[..]) == old(Hdr(fdt[..])).(sizeStrings := old(Hdr(fdt[..])).sizeStrings + |name| + 1)
  {
    hide Holds, Hdr, Events, Spliced, IsStr, PutBytes, WfView;
    ghost var s := fdt[..];
    Layout(s, v);
    var h := GetHeader(fdt);
    var end := h.offStrings + h.sizeStrings;
    err := Splice(fdt, end, 0, |name| + 1, v);
    if err != 0 {
      return;
    }
    ghost var s1 := fdt[..];
    SetHeader(fdt, SIZE_STRINGS, h.sizeStrings + |name| + 1);
    ghost var s2 := fdt[..];
    assert fdt[..][HEADER..] == fdt[HEADER..] == s1[HEADER..];
    SplicedHeaderStore(s, s1, s2, end, 0, |name| + 1, end);
    SplicedBounds(s, s2, end, 0, |name| + 1, end);
    Memcpy(fdt, end, name + [0]);
    SplicedWrite(s, s2, end, 0, |name| + 1, end, end, name + [0]);
    PutBytesEffect(s2, end, name + [0]);
    StringsAppendHolds(s, fdt[..], v, name + [0]);
  }

  lemma AppendedName(strs: seq<byte>, name: Name)
    requires 0 !in name
    ensures IsStr(strs + (name + [0]), |strs|, name)
  {
    assert (strs + (name + [0]))[|strs|..|strs| + |name|] == name;
  }

  lemma StringsBlock(s: seq<byte>, v: View)
    requires Holds(s, v)
    ensures Hdr(s).offStrings + |v.strs| <= |s| && Hdr(s).sizeStrings == |v.strs|
    ensures s[Hdr(s).offStrings..Hdr(s).offStrings + |v.strs|] == v.strs
  {
  }

  /** A longer strings block names the same node. */
  lemma StringsNode(v: View, more: seq<byte>, t: Node, k0: nat, p: Path)
    requires WfView(v) && NodeAt(v, t, k0, p)
    ensures NodeAt(v.(strs := v.strs + more), t, k0, p)
  {
    EventsAppendStrings(v.body[..k0], v.strs, more);
  }

  /** _fdt_add_property and the final memcpy: the new property goes first. */
  method AddProperty(fdt: array<byte>, nodeoffset: i32, name: Name, value: seq<byte>,
                     ghost v: View, ghost t: Node, ghost k0: nat, ghost p: Path)
    returns (err: int, ghost v': View)
    requires Holds(fdt[..], v) && DecodesTo(v, t) && NodeAt(v, t, k0, p) && nodeoffset == OffsetOf(v, k0)
    requires 0 !in name && |value| < TWO31 - 16
    modifies fdt
    ensures Holds(fdt[..], v') && v'.rsv == v.rsv
    ensures err == if old(DataSize(fdt[..])) + StringGrowth(v.strs, name) + 12 + Align4(|value|)
                      > old(Hdr(fdt[..])).totalsize then NOSPACE else 0
    ensures err != 0 ==> DecodesTo(v', t)
    ensures err == 0 ==>
      var n := At(t, p); DecodesTo(v', Replace(t, p, n.(props := [Property(name, value)] + n.props)))
    ensures HEADER <= fdt.Length && Hdr(fdt[..]).version == old(Hdr(fdt[..])).version
    ensures
      var n := if err == 0 then 12 + Align4(|value|) else 0;
      Grows(old(Hdr(fdt[..])), Hdr(fdt[..]), 0, n, |v'.strs| - |v.strs|)
    ensures err == 0 ==> |v'.strs| == |v.strs| + StringGrowth(v.strs, name)
  {
    hide Holds, Hdr, Size, Events, Flat, Pre, At, Replace, Encodes, StringGrowth, Word, IsStr, StructSpliced, PutBytes;
    hide PutWord, Terminated, ReadsAs, TagFrom, StructOf;
    var next := CheckNodeOffset(fdt, nodeoffset, v, k0);
    var namestroff, v1 := FindAddString(fdt, name, v);
    if namestroff < 0 {
      return namestroff, v;
    }
    StringsKeep(old(fdt[..]), v, v1, name + [0], t, k0, p);
    ghost var s := fdt[..];
    Layout(s, v1);
    TokSpan(s, v1, k0);
    var h := GetHeader(fdt);
    var z := h.offStruct + next;
    err := SpliceStruct(fdt, z, 0, 12 + Align4(|value|), v1);
    if err != 0 {
      return err, v1;
    }
    StrBound(v1.strs, namestroff, name);
    WriteProp(fdt, z, namestroff, value, s);
    SplicedGrows(s, fdt[..], z, 0, 12 + Align4(|value|));
    ghost var u := Prop(namestroff, value);
    NameIs(v1.strs, namestroff, name);
    StructSpliceHolds(s, fdt[..], v1, k0 + 1, k0 + 1, 12 + Align4(|value|), [u]);
    v' := ReplaceToks(v1, k0 + 1, k0 + 1, [u]);
    AddDecodes(v1, t, k0, p, namestroff, name, value);
  }

  lemma StringsKeep(s: seq<byte>, v: View, v1: View, more: seq<byte>, t: Node, k0: nat, p: Path)
    requires Holds(s, v) && NodeAt(v, t, k0, p) && (v1 == v || v1 == v.(strs := v.strs + more))
    ensures NodeAt(v1, t, k0, p) && OffsetOf(v1, k0 + 1) == OffsetOf(v, k0 + 1)
  {
    if v1 != v {
      StringsNode(v, more, t, k0, p);
    }
  }

  lemma StrBound(strs: seq<byte>, off: nat, name: Name)
    requires IsStr(strs, off, name)
    ensures off < |strs|
  {
  }

  lemma StructWiden(s: seq<byte>, s': seq<byte>, at: int, oldlen: int, newlen: int, c: nat)
    requires StructSpliced(s, s', at, oldlen, newlen) && HEADER <= at - c
    ensures StructSpliced(s, s', at - c, oldlen + c, newlen + c)
  {
    hide Hdr;
    SplicedWiden(s, s', at, oldlen, newlen, DataSize(s), c);
  }

  lemma StructWrite(s: seq<byte>, s': seq<byte>, at: int, oldlen: int, newlen: int, x: int, b: seq<byte>)
    requires StructSpliced(s, s', at, oldlen, newlen) && at <= x && x + |b| <= at + newlen
    ensures 0 <= x && x + |b| <= |s'|
    ensures StructSpliced(s, PutBytes(s', x, b), at, oldlen, newlen)
  {
    hide Hdr, PutBytes;
    SplicedBounds(s, s', at, oldlen, newlen, DataSize(s));
    SplicedWrite(s, s', at, oldlen, newlen, DataSize(s), x, b);
  }

  /** Words below the gap are kept. */
  lemma StructBelow(s: seq<byte>, s': seq<byte>, at: int, oldlen: int, newlen: int, x: nat)
    requires StructSpliced(s, s', at, oldlen, newlen) && HEADER <= x && x + 4 <= at
    ensures x + 4 <= |s| == |s'| && Word(s', x) == Word(s, x)
  {
    hide Hdr, Word;
    Shifted(s, s', HEADER, at, 0, x, x + 4);
    WordSlice(s', x, s, x);
  }

  lemma GapBounds(s: seq<byte>, s': seq<byte>, at: int, oldlen: int, newlen: int)
    requires StructSpliced(s, s', at, oldlen, newlen)
    ensures HEADER <= at <= at + newlen <= |s'| == |s|
  {
  }

  /** Filling the gap opened at `z` with a property. */
  method WriteProp(fdt: array<byte>, z: nat, nameoff: u32, value: seq<byte>, ghost s: seq<byte>)
    requires |value| < TWO32 && StructSpliced(s, fdt[..], z, 0, 12 + Align4(|value|))
    modifies fdt
    ensures StructSpliced(s, fdt[..], z, 0, 12 + Align4(|value|))
    ensures z + 12 + Align4(|value|) <= fdt.Length
    ensures Encodes(fdt[..][z..z + (12 + Align4(|value|))], [Prop(nameoff, value)])
  {
    hide Hdr, Word, Encodes, StructSpliced, PutBytes, TokEnc;
    ghost var n := 12 + Align4(|value|);
    ghost var s1 := fdt[..];
    GapBounds(s, s1, z, 0, n);
    StoreWord(fdt, z, FDT_PROP);
    ghost var s2 := fdt[..];
    StoreWord(fdt, z + 8, nameoff);
    ghost var s3 := fdt[..];
    StoreWord(fdt, z + 4, |value|);
    ghost var s4 := fdt[..];
    Memcpy(fdt, z + 12, value);
    ghost var s5 := fdt[..];
    StructWrite(s, s1, z, 0, n, z, EncWord(FDT_PROP));
    StructWrite(s, s2, z, 0, n, z + 8, EncWord(nameoff));
    StructWrite(s, s3, z, 0, n, z + 4, EncWord(|value|));
    StructWrite(s, s4, z, 0, n, z + 12, value);
    PutWordEffect(s1, z, FDT_PROP);
    PutWordEffect(s2, z + 8, nameoff);
    PutWordEffect(s3, z + 4, |value|);
    PutBytesEffect(s4, z + 12, value);
    PropEncoded(s5, z, nameoff, value);
    EncodesOne(s5[z..z + n], Prop(nameoff, value));
  }

  lemma AddDecodes(v: View, t: Node, k0: nat, p: Path, nameoff: u32, name: Name, value: seq<byte>)
    requires WfView(v) && DecodesTo(v, t) && NodeAt(v, t, k0, p) && NameAt(v.strs, nameoff) == name
    ensures var n := At(t, p); DecodesTo(ReplaceToks(v, k0 + 1, k0 + 1, [Prop(nameoff, value)]),
      Replace(t, p, n.(props := [Property(name, value)] + n.props)))
  {
    hide Flat, Pre, At, Replace, Events, NameAt;
    var n := At(t, p);
    var u, q := Prop(nameoff, value), Property(name, value);
    Cursor(v, k0);
    EventsOne(u, v.strs);
    assert PropEvents([q]) == [EProp(q.name, q.value)];
    assert n.props == [] + [] + n.props && [q] + n.props == [] + [q] + n.props;
    PropsEdit(v, t, k0, p, k0 + 1, k0 + 1, [u], [], [], [q], n.props);
  }
}
