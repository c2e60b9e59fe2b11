/** fdt_ro.c: property and subnode lookup by name. */
module FdtLookup {
  import opened FdtBytes
  import opened FdtTree
  import opened FdtFormat
  import opened FdtBlob
  import opened FdtScan
  import opened FdtWalk

  // ----- Strings

  lemma StringsOf(s: seq<byte>, v: View)
    requires Holds(s, v)
    ensures HEADER <= |s| < TWO31 && Hdr(s).offStrings + |v.strs| <= |s|
    ensures forall i | 0 <= i < |v.strs| :: s[Hdr(s).offStrings + i] == v.strs[i]
  {
    hide Word;
    var o := Hdr(s).offStrings;
    forall i | 0 <= i < |v.strs|
      ensures s[o + i] == v.strs[i]
    {
      assert Block(s, o, |v.strs|)[i] == s[o + i];
    }
  }

  /** _fdt_string_eq: strlen(p) == len && memcmp(p, s, len) == 0. */
  method StringEq(fdt: array<byte>, stroff: nat, name: Name, ghost v: View) returns (r: bool)
    requires Holds(fdt[..], v) && Terminated(v.strs, stroff)
    ensures r == (NameAt(v.strs, stroff) == name)
  {
    hide Word, Holds;
    StringsOf(fdt[..], v);
    var base := LoadWord(fdt, OFF_STRINGS);
    ghost var str := StrAt(v.strs, stroff);
    StrChars(v.strs, stroff, str);
    var len := 0;
    while fdt[base + stroff + len] != 0
      invariant 0 <= len <= |str|
      decreases |str| - len
    {
      assert fdt[..][base + (stroff + len)] == v.strs[stroff + len];
      len := len + 1;
    }
    assert fdt[..][base + (stroff + len)] == v.strs[stroff + len];
    var p := fdt[base + stroff..base + stroff + len];
    assert p == str by {
      forall i | 0 <= i < len
        ensures p[i] == str[i]
      {
        assert fdt[..][base + (stroff + i)] == v.strs[stroff + i] == v.strs[stroff..stroff + len][i];
      }
    }
    r := len == |name| && p == name;
  }

  // ----- Properties

  /** Index of the first property called `name`, or the number of properties. */
  function FirstProp(ps: seq<Property>, name: Name): (i: nat)
    ensures i <= |ps|
    ensures i < |ps| ==> ps[i].name == name
    ensures forall j | 0 <= j < i :: ps[j].name != name
  {
    if ps == [] then 0
    else if ps[0].name == name then 0
    else
      var i := FirstProp(ps[1..], name);
      assert forall j | 1 <= j < 1 + i :: ps[j] == ps[1..][j - 1];
      1 + i
  }

  lemma FirstPropIs(ps: seq<Property>, name: Name, i: nat)
    requires i <= |ps| && (i < |ps| ==> ps[i].name == name)
    requires forall j | 0 <= j < i :: ps[j].name != name
    ensures FirstProp(ps, name) == i
  {
  }

  /** Reading the header of the property token `k`. */
  lemma PropWords(s: seq<byte>, v: View, k: nat)
    requires Holds(s, v) && k < |v.body| && v.body[k].Prop?
    ensures var z := Hdr(s).offStruct + OffsetOf(v, k);
      && OffsetOf(v, k) % 4 == 0 && z + TokLen(v.body[k]) <= Hdr(s).offStrings <= |s|
      && Word(s, z) == FDT_PROP
      && Word(s, z + 4) == |v.body[k].value| && Word(s, z + 8) == v.body[k].nameoff
      && s[z + 12..z + 12 + |v.body[k].value|] == v.body[k].value
    ensures Terminated(v.strs, v.body[k].nameoff)
  {
    hide Holds, Word, Encodes, Size;
    TokIs(v, k);
    WfOf(s, v);
    StructFacts(s, v);
    var b := StructOf(s);
    var o := Hdr(s).offStruct;
    TokenAt(b, v.Toks(), k);
    TagAt(s, v, k);
    var z, l, x := OffsetOf(v, k), TokLen(v.body[k]), |v.body[k].value|;
    SliceSlice(s, o, o + |b|, z, z + l);
    WordAtSlice(s, o + z, l, 0);
    WordAtSlice(s, o + z, l, 4);
    WordAtSlice(s, o + z, l, 8);
    SliceSlice(s, o + z, o + z + l, 12, 12 + x);
  }

  /** _nextprop: skips FDT_NOP; a property's offset, or an error. */
  method NextProp(fdt: array<byte>, start: nat, ghost v: View, ghost k0: nat) returns (r: int, ghost k: nat)
    requires Holds(fdt[..], v) && k0 <= |v.body| && start == OffsetOf(v, k0)
    ensures EvIdx(v, k0) <= |v.Ev()|
    ensures EvIdx(v, k0) == |v.Ev()| ==> r == BADSTRUCTURE
    ensures EvIdx(v, k0) < |v.Ev()| && !v.Ev()[EvIdx(v, k0)].EProp? ==> r == NOTFOUND
    ensures EvIdx(v, k0) < |v.Ev()| && v.Ev()[EvIdx(v, k0)].EProp? ==>
      k0 <= k < |v.body| && v.body[k].Prop? && r == OffsetOf(v, k) && EvIdx(v, k) == EvIdx(v, k0)
  {
    hide Holds, TagFrom, Word, Size, Events;
    WfOf(fdt[..], v);
    var offset := start;
    k := k0;
    EvIdxMonotone(v, k0, k0);
    while true
      invariant k0 <= k <= |v.body| && offset == OffsetOf(v, k) && EvIdx(v, k) == EvIdx(v, k0)
      decreases |v.body| - k
    {
      TagAt(fdt[..], v, k);
      TokIs(v, k);
      var tag, next := NextTag(fdt, offset, v);
      if tag == FDT_END {
        CursorEnds(v);
        return if next >= 0 then BADSTRUCTURE else next, k;
      }
      Cursor(v, k);
      if tag == FDT_PROP {
        return offset, k;
      }
      offset := next;
      if tag != FDT_NOP {
        return NOTFOUND, k;
      }
      k := k + 1;
    }
  }

  /** Token `k` is property number `i` of node `n`, whose begin token is `k0`. */
  ghost predicate PropAt(v: View, k0: nat, k: int, n: Node, i: nat) {
    && k0 < k < |v.body| && v.body[k].Prop? && i < |n.props|
    && EvIdx(v, k) == EvIdx(v, k0) + 1 + i
    && NameAt(v.strs, v.body[k].nameoff) == n.props[i].name
    && v.body[k].value == n.props[i].value
  }

  lemma PropAtEvent(v: View, t: Node, k0: nat, p: Path, k: nat, i: nat)
    requires WfView(v) && DecodesTo(v, t) && NodeAt(v, t, k0, p)
    requires k0 < k < |v.body| && v.body[k].Prop? && EvIdx(v, k) == EvIdx(v, k0) + 1 + i && i <= |At(t, p).props|
    ensures PropAt(v, k0, k, At(t, p), i)
  {
    NodeOccurs(v, t, k0, p);
    NodeEvents(v.Ev(), EvIdx(v, k0), At(t, p));
    Cursor(v, k);
  }

  lemma FlatAllHead(ns: seq<Node>)
    requires ns != []
    ensures FlatAll(ns) != [] && FlatAll(ns)[0] == EBegin(ns[0].name)
  {
  }

  /** The events just after a node's begin event: its properties, then a begin or
      an end event. */
  lemma NodeEvents(ev: seq<Event>, e: nat, n: Node)
    requires Occurs(ev, e, Flat(n))
    ensures e + 1 + |n.props| < |ev| && !ev[e + 1 + |n.props|].EProp?
    ensures forall j | e + 1 <= j < e + 1 + |n.props| ::
      ev[j] == EProp(n.props[j - e - 1].name, n.props[j - e - 1].value)
  {
    hide Flat;
    NodeParts(ev, e, n);
    var r := PropEvents(n.props);
    forall j | e + 1 <= j < e + 1 + |n.props|
      ensures ev[j] == EProp(n.props[j - e - 1].name, n.props[j - e - 1].value)
    {
      assert ev[e + 1..e + 1 + |r|][j - e - 1] == r[j - e - 1];
    }
    var c := e + 1 + |n.props|;
    if n.children != [] {
      FlatAllHead(n.children);
      OccursHead(ev, c, FlatAll(n.children));
    }
  }

  /** fdt_get_property: the first property of that name, or -NOTFOUND. */
  method GetProperty(fdt: array<byte>, nodeoffset: i32, name: Name,
                     ghost v: View, ghost t: Node, ghost k0: int, ghost p: Path)
    returns (r: int, len: int, ghost k: int)
    requires Holds(fdt[..], v) && DecodesTo(v, t) && Names(v, nodeoffset, k0)
    requires IsNode(v, k0) ==> NodeAt(v, t, k0, p)
    ensures !IsNode(v, k0) ==> r == len == BADOFFSET
    ensures IsNode(v, k0) ==>
      var n := At(t, p);
      var i := FirstProp(n.props, name);
      if i == |n.props| then r == len == NOTFOUND
      else PropAt(v, k0, k, n, i) && r == OffsetOf(v, k) && len == |n.props[i].value|
  {
    hide Holds, Word, Size, Events, Flat, Pre, FirstProp, Terminated, NameAt, At, ReadsAs, TagFrom, StructOf;
    WfOf(fdt[..], v);
    k := 0;
    var offset := CheckNodeOffset(fdt, nodeoffset, v, k0);
    if offset < 0 {
      return offset, offset, 0;
    }
    Cursor(v, k0);
    ghost var n := At(t, p);
    NodeOccurs(v, t, k0, p);
    NodeEvents(v.Ev(), EvIdx(v, k0), n);
    offset, k := NextProp(fdt, offset, v, k0 + 1);
    ghost var i := 0;
    while offset >= 0
      invariant i <= |n.props| && forall j | 0 <= j < i :: n.props[j].name != name
      invariant i == |n.props| ==> offset == NOTFOUND
      invariant i < |n.props| ==>
        k0 < k < |v.body| && v.body[k].Prop? && offset == OffsetOf(v, k) && EvIdx(v, k) == EvIdx(v, k0) + 1 + i
      decreases |n.props| - i
    {
      PropAtEvent(v, t, k0, p, k, i);
      PropWords(fdt[..], v, k);
      var next := CheckPropOffset(fdt, offset, v, k);
      var base := LoadWord(fdt, OFF_STRUCT);
      len := LoadWord(fdt, base + offset + 4);
      var nameoff := LoadWord(fdt, base + offset + 8);
      var eq := StringEq(fdt, nameoff, name, v);
      if eq {
        FirstPropIs(n.props, name, i);
        return offset, len, k;
      }
      Cursor(v, k);
      offset, k := NextProp(fdt, next, v, k + 1);
      i := i + 1;
    }
    FirstPropIs(n.props, name, |n.props|);
    return offset, offset, 0;
  }

  // ----- Subnodes

  lemma NodeBytes(s: seq<byte>, v: View, k: nat)
    requires Holds(s, v) && IsNode(v, k)
    ensures var z := Hdr(s).offStruct + OffsetOf(v, k) + 4;
      && z + Align4(|v.body[k].name| + 1) <= Hdr(s).offStruct + Hdr(s).sizeStruct <= |s|
      && IsStr(s, z, v.body[k].name)
  {
    hide Holds, Word, Encodes, Size, TokEnc;
    TokIs(v, k);
    StructFacts(s, v);
    var b := StructOf(s);
    var o := Hdr(s).offStruct;
    TokenAt(b, v.Toks(), k);
    SizeAligned(v.Toks()[..k]);
    var z, n := OffsetOf(v, k), v.body[k].name;
    TagAtBegin(b, z, n);
    StrOfSlice(s, o, |b|, z + 4, n);
  }

  lemma StrOfSlice(s: seq<byte>, o: nat, n: nat, i: nat, name: Name)
    requires o + n <= |s| && IsStr(s[o..o + n], i, name)
    ensures IsStr(s, o + i, name)
  {
    SliceSlice(s, o, o + n, i, i + |name|);
    assert s[o..o + n][i + |name|] == s[o + i + |name|];
  }

  /** _fdt_nodename_eq. */
  method NodenameEq(fdt: array<byte>, offset: nat, s: Name, ghost v: View, ghost k: nat) returns (r: bool)
    requires Holds(fdt[..], v) && IsNode(v, k) && offset == OffsetOf(v, k) && 0 !in s
    ensures r == NameMatch(v.body[k].name, s)
  {
    hide Word, Size;
    NodeBytes(fdt[..], v, k);
    var base := LoadWord(fdt, OFF_STRUCT);
    var size := LoadWord(fdt, SIZE_STRUCT);
    ghost var n := v.body[k].name;
    var z := base + offset + 4;
    hide Holds, IsStr, NameMatch;
    if !OffsetOk(size, offset + 4, |s| + 1) {
      TooLong(n, s);
      return false;
    }
    Compared(fdt[..], z, n, s);
    assert fdt[..][z..z + |s|] == fdt[z..z + |s|];
    r := fdt[z..z + |s|] == s && (fdt[z + |s|] == 0 || (AT_SIGN !in s && fdt[z + |s|] == AT_SIGN));
  }

  lemma TooLong(n: Name, s: Name)
    ensures |s| > |n| ==> !NameMatch(n, s)
  {
  }

  /** Comparing the bytes of a node's name, terminator included, decides the match. */
  lemma Compared(b: seq<byte>, z: nat, n: Name, s: Name)
    requires IsStr(b, z, n) && z + |s| < |b| && 0 !in s
    ensures NameMatch(n, s) <==> b[z..z + |s|] == s && (b[z + |s|] == 0 || (AT_SIGN !in s && b[z + |s|] == AT_SIGN))
  {
    StrChars(b, z, n);
    if |s| > |n| {
      assert b[z..z + |s|][|n|] == 0;
    } else {
      assert b[z..z + |s|] == b[z..z + |n|][..|s|];
      assert |s| < |n| ==> b[z + |s|] == b[z..z + |n|][|s|];
    }
  }

  lemma ChildAt(v: View, t: Node, k0: nat, p: Path, k: nat, i: nat)
    requires NodeAt(v, t, k0, p) && IsNode(v, k) && i < |At(t, p).children|
    requires EvIdx(v, k) == EvIdx(v, k0) + 1 + |At(t, p).props| + |FlatAll(At(t, p).children[..i])|
    ensures NodeAt(v, t, k, p + [i])
  {
    var n := At(t, p);
    assert [i][1..] == [] && Pre(n.children[i], []) == [];
    assert Pre(n, [i]) == [EBegin(n.name)] + PropEvents(n.props) + FlatAll(n.children[..i]) + [];
    PreConcat(t, p, [i]);
  }

  /** fdt_subnode_offset_namelen: the first child whose name matches. */
  method SubnodeOffset(fdt: array<byte>, parent: i32, name: Name,
                       ghost v: View, ghost t: Node, ghost k0: int, ghost p: Path)
    returns (r: i32, ghost k: int)
    requires Holds(fdt[..], v) && DecodesTo(v, t) && Names(v, parent, k0) && 0 !in name
    requires IsNode(v, k0) ==> NodeAt(v, t, k0, p)
    ensures !IsNode(v, k0) ==> r == if parent < 0 then parent else BADOFFSET
    ensures IsNode(v, k0) ==>
      var i := FirstMatch(At(t, p).children, name);
      if i == |At(t, p).children| then r == NOTFOUND
      else NodeAt(v, t, k, p + [i]) && r == OffsetOf(v, k)
  {
    hide Holds, Word, Size, Events, Flat, Pre, FlatAll, FirstMatch, NameMatch, ScanNode, SubFrom, CloseFrom, At;
    WfOf(fdt[..], v);
    var offset: i32, depth := parent, 0;
    k := k0;
    ghost var valid, goal := IsNode(v, k0), 0;
    if valid {
      NodeOccurs(v, t, k0, p);
      SubInNode(v.Ev(), EvIdx(v, k0), At(t, p), name);
      goal := SubFrom(v.Ev(), EvIdx(v, k0) + 1, 0, name);
    }
    while offset >= 0 && depth >= 0
      invariant !valid ==> depth == 0 && k == k0 && (offset == parent || (parent >= 0 && offset == BADOFFSET))
      invariant valid && depth < 0 ==> goal == -1
      invariant valid && depth >= 0 ==> offset == NOTFOUND || (IsNode(v, k) && offset == OffsetOf(v, k))
      invariant valid && depth >= 0 && offset == NOTFOUND ==> goal == -1
      invariant valid && depth >= 0 && offset >= 0 ==>
        goal == if depth == 1 && NameMatch(v.body[k].name, name) then EvIdx(v, k)
                else SubFrom(v.Ev(), EvIdx(v, k) + 1, depth, name)
      decreases |v.body| - k, if offset >= 0 && depth >= 0 then 1 else 0
    {
      if depth == 1 {
        var eq := NodenameEq(fdt, offset, name, v, k);
        if eq {
          ChildAt(v, t, k0, p, k, FirstMatch(At(t, p).children, name));
          return offset, k;
        }
      }
      ghost var k', d' := k, depth;
      offset, depth, k := NextNode(fdt, offset, depth, v, k);
      if valid {
        ScanSteps(v.Ev(), EvIdx(v, k') + 1, d', name);
        ghost var scan := ScanNode(v.Ev(), EvIdx(v, k') + 1, d');
        if scan.Exhausted? {
          k := |v.body|;
        } else {
          LandsLater(v, k', k);
        }
        if scan.Found? {
          Cursor(v, k);
        }
      } else {
        k := k0;
      }
    }
    if depth < 0 {
      return NOTFOUND, k;
    }
    r := offset;
  }
}
