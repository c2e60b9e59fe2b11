/** fdt_wip.c: deleting in place by overwriting with FDT_NOP. */
module FdtNop {
  import opened FdtBytes
  import opened FdtTree
  import opened FdtFormat
  import opened FdtBlob
  import opened FdtWalk
  import opened FdtLookup
  import opened FdtSplice
  import opened FdtEdit

  function Nops(n: nat): (r: seq<Token>)
    ensures |r| == n && forall i | 0 <= i < n :: r[i] == Nop
  {
    seq(n, _ => Nop)
  }

  function NopBytes(n: nat): (r: seq<byte>)
    ensures |r| == 4 * n
  {
    if n == 0 then [] else NopBytes(n - 1) + EncWord(FDT_NOP)
  }

  lemma {:induction false} NopsEncoded(n: nat)
    ensures Encodes(NopBytes(n), Nops(n)) && Size(Nops(n)) == 4 * n
  {
    hide EncWord, Word;
    if n == 0 {
      assert Nops(0) == [];
    } else {
      NopsEncoded(n - 1);
      WordOfEnc(FDT_NOP);
      EncodesSnoc(NopBytes(n - 1), Nops(n - 1), EncWord(FDT_NOP), Nop);
      assert Nops(n) == Nops(n - 1) + [Nop];
      EncodesSize(NopBytes(n), Nops(n));
    }
  }

  lemma {:induction false} NopsSilent(n: nat, strs: seq<byte>)
    ensures Events(Nops(n), strs) == [] && Resolvable(Nops(n), strs) && End !in Nops(n)
  {
    if n == 0 {
      assert Nops(0) == [];
    } else {
      NopsSilent(n - 1, strs);
      assert Nops(n)[..n - 1] == Nops(n - 1);
    }
  }

  /** _fdt_nop_region: whole words, the last one possibly past `len`. */
  method NopRegion(fdt: array<byte>, start: nat, len: nat)
    requires start + Align4(len) <= fdt.Length
    modifies fdt
    ensures fdt[..] == PutBytes(old(fdt[..]), start, NopBytes(Align4(len) / 4))
  {
    hide PutBytes, EncWord, NopBytes;
    ghost var s := fdt[..];
    var p := start;
    ghost var n := 0;
    NoNops(s, start);
    while p < start + len
      invariant 4 * n <= Align4(len) && p == start + 4 * n
      invariant fdt[..] == PutBytes(s, start, NopBytes(n))
      decreases start + len + 4 - p
    {
      NextNop(n, len);
      PutAppend(s, start, NopBytes(n), EncWord(FDT_NOP));
      StoreWord(fdt, p, FDT_NOP);
      p := p + 4;
      n := n + 1;
    }
    LastNop(n, len);
  }

  lemma NoNops(s: seq<byte>, i: nat)
    requires i <= |s|
    ensures PutBytes(s, i, NopBytes(0)) == s
  {
  }

  lemma NextNop(n: nat, len: nat)
    requires 4 * n < len
    ensures 4 * (n + 1) <= Align4(len) && NopBytes(n + 1) == NopBytes(n) + EncWord(FDT_NOP)
  {
    hide EncWord;
  }

  lemma LastNop(n: nat, len: nat)
    requires len <= 4 * n <= Align4(len)
    ensures n == Align4(len) / 4
  {
  }

  lemma PutAppend(s: seq<byte>, i: nat, a: seq<byte>, b: seq<byte>)
    requires i + |a| + |b| <= |s|
    ensures PutBytes(PutBytes(s, i, a), i + |a|, b) == PutBytes(s, i, a + b)
  {
  }

  /** Offsets outside the region are where they were, and so is everything after
      the structure block. */
  ghost predicate OffsetsKept(v: View, v': View, i: nat, j: nat)
    requires i <= j <= |v.body|
  {
    && |v'.body| >= |v.body| - (j - i)
    && Size(v'.Toks()) == Size(v.Toks())
    && (forall k | 0 <= k <= i :: k <= |v'.body| && OffsetOf(v', k) == OffsetOf(v, k))
    && (forall k | j <= k <= |v.body| :: OffsetOf(v', k + |v'.body| - |v.body|) == OffsetOf(v, k))
  }

  lemma NopOffsets(v: View, i: nat, j: nat, us: seq<Token>)
    requires i <= j <= |v.body| && Size(us) == OffsetOf(v, j) - OffsetOf(v, i)
    ensures OffsetsKept(v, ReplaceToks(v, i, j, us), i, j)
  {
    hide Size;
    var v' := ReplaceToks(v, i, j, us);
    var ts, ts' := v.Toks(), v'.Toks();
    forall k | 0 <= k <= i
      ensures OffsetOf(v', k) == OffsetOf(v, k)
    {
      assert ts'[..k] == ts[..k];
    }
    forall k | j <= k <= |v.body|
      ensures OffsetOf(v', k + |v'.body| - |v.body|) == OffsetOf(v, k)
    {
      SuffixOffset(v, i, j, us, k);
    }
    SuffixOffset(v, i, j, us, |v.body| + 1);
    assert ts'[..|ts'|] == ts' && ts[..|ts|] == ts;
  }

  lemma SuffixOffset(v: View, i: nat, j: nat, us: seq<Token>, k: nat)
    requires i <= j <= |v.body| && Size(us) == OffsetOf(v, j) - OffsetOf(v, i) && j <= k <= |v.body| + 1
    ensures var v' := ReplaceToks(v, i, j, us); OffsetOf(v', k + |v'.body| - |v.body|) == OffsetOf(v, k)
  {
    hide Size;
    var v' := ReplaceToks(v, i, j, us);
    var ts, ts' := v.Toks(), v'.Toks();
    var mid := ts[j..k];
    assert ts' == ts[..i] + us + ts[j..];
    assert ts[..k] == ts[..j] + mid;
    assert ts'[..k + |v'.body| - |v.body|] == ts[..i] + us + mid;
    SizeConcat(ts[..j], mid);
    SizeConcat(ts[..i] + us, mid);
    SizeConcat(ts[..i], us);
  }

  /** Overwriting the tokens from `i` to `j` by nops, header untouched. */
  lemma NopHolds(s: seq<byte>, v: View, i: nat, j: nat)
    requires Holds(s, v) && i <= j <= |v.body|
    ensures Pos(s, v, i) <= Pos(s, v, j) <= |s| && (Pos(s, v, j) - Pos(s, v, i)) % 4 == 0
    ensures var n := (Pos(s, v, j) - Pos(s, v, i)) / 4;
      var s' := PutBytes(s, Pos(s, v, i), NopBytes(n));
      && Holds(s', ReplaceToks(v, i, j, Nops(n))) && Hdr(s') == Hdr(s)
      && OffsetsKept(v, ReplaceToks(v, i, j, Nops(n)), i, j)
  {
    hide Holds, Hdr, Size, Encodes, StructSpliced, PutBytes, NopBytes, Nops, OffsetsKept;
    Layout(s, v);
    SizeMonotone(v.Toks(), i, j);
    SizeAligned(v.Toks()[..i]);
    SizeAligned(v.Toks()[..j]);
    var z, len := Pos(s, v, i), Pos(s, v, j) - Pos(s, v, i);
    var n := len / 4;
    NopsEncoded(n);
    NopsSilent(n, v.strs);
    SplicedSelf(s, z, len);
    StructWrite(s, s, z, len, len, z, NopBytes(n));
    PutBytesEffect(s, z, NopBytes(n));
    StructSpliceHolds(s, PutBytes(s, z, NopBytes(n)), v, i, j, len, Nops(n));
    NopOffsets(v, i, j, Nops(n));
    HeaderBelow(s, z, NopBytes(n));
  }

  lemma HeaderBelow(s: seq<byte>, z: nat, b: seq<byte>)
    requires HEADER <= z && z + |b| <= |s|
    ensures Hdr(PutBytes(s, z, b)) == Hdr(s)
  {
    SameHeader(s, PutBytes(s, z, b));
  }

  lemma SplicedSelf(s: seq<byte>, z: nat, len: nat)
    requires HEADER <= |s| && HEADER <= z && z + len <= DataSize(s) <= Hdr(s).totalsize <= |s|
    ensures StructSpliced(s, s, z, len, len)
  {
  }

  /** fdt_nop_property: the same tree as fdt_delprop, nothing moved. */
  method NopProperty(fdt: array<byte>, nodeoffset: i32, name: Name,
                     ghost v: View, ghost t: Node, ghost k0: int, ghost p: Path)
    returns (err: int, ghost v': View, ghost k: int)
    requires Holds(fdt[..], v) && DecodesTo(v, t) && Names(v, nodeoffset, k0)
    requires IsNode(v, k0) ==> NodeAt(v, t, k0, p)
    modifies fdt
    ensures Holds(fdt[..], v') && v'.rsv == v.rsv && Hdr(fdt[..]) == old(Hdr(fdt[..]))
    ensures err == if !IsNode(v, k0) then BADOFFSET
                   else if FirstProp(At(t, p).props, name) == |At(t, p).props| then NOTFOUND
                   else 0
    ensures err != 0 ==> v' == v
    ensures err == 0 ==>
      var n := At(t, p);
      var i := FirstProp(n.props, name);
      && DecodesTo(v', Replace(t, p, n.(props := n.props[..i] + n.props[i + 1..])))
      && 0 <= k < |v.body| && OffsetsKept(v, v', k, k + 1)
  {
    hide Holds, Hdr, Size, Events, Flat, Pre, At, Replace, FirstProp, NameAt, PutBytes, NopBytes, Nops, OffsetsKept;
    var r, len;
    r, len, k := GetProperty(fdt, nodeoffset, name, v, t, k0, p);
    if r < 0 {
      return len, v, 0;
    }
    ghost var s := fdt[..];
    Layout(s, v);
    TokSpan(s, v, k);
    NopHolds(s, v, k, k + 1);
    var h := GetHeader(fdt);
    AlignAdd(12, len);
    NopRegion(fdt, h.offStruct + r, len + 12);
    ghost var m := (12 + Align4(len)) / 4;
    v' := ReplaceToks(v, k, k + 1, Nops(m));
    ghost var n := At(t, p);
    ghost var i := FirstProp(n.props, name);
    Cursor(v, k);
    assert n.props == n.props[..i] + [n.props[i]] + n.props[i + 1..];
    NopsSilent(m, v.strs);
    assert PropEvents([]) == [];
    PropsEdit(v, t, k0, p, k, k + 1, Nops(m), n.props[..i], [n.props[i]], [], n.props[i + 1..]);
    assert n.props[..i] + [] + n.props[i + 1..] == n.props[..i] + n.props[i + 1..];
    err := 0;
  }

  /** fdt_nop_node: the same tree as fdt_del_node, nothing moved. */
  method NopNode(fdt: array<byte>, nodeoffset: i32,
                 ghost v: View, ghost t: Node, ghost k0: int, ghost p: Path)
    returns (err: int, ghost v': View, ghost k: int)
    requires Holds(fdt[..], v) && DecodesTo(v, t) && Names(v, nodeoffset, k0)
    requires IsNode(v, k0) ==> NodeAt(v, t, k0, p)
    modifies fdt
    ensures Holds(fdt[..], v') && v'.rsv == v.rsv && Hdr(fdt[..]) == old(Hdr(fdt[..]))
    ensures err < 0 <==> !IsNode(v, k0)
    ensures err != 0 ==> err < 0 && v' == v
    ensures err == 0 && p != [] ==> DecodesTo(v', Delete(t, p))
    ensures err == 0 && p == [] ==> v'.Ev() == []
    ensures err == 0 ==> k0 < k <= |v.body| && OffsetsKept(v, v', k0, k)
  {
    hide Holds, Hdr, Size, Events, Flat, Pre, At, Delete, PutBytes, NopBytes, Nops, OffsetsKept;
    var end;
    end, k := NodeEndOffset(fdt, nodeoffset, v, t, k0, p);
    if end < 0 {
      return end, v, 0;
    }
    ghost var s := fdt[..];
    Layout(s, v);
    NopHolds(s, v, k0, k);
    var h := GetHeader(fdt);
    AlignMultiple(end - nodeoffset);
    NopRegion(fdt, h.offStruct + nodeoffset, end - nodeoffset);
    ghost var m := (end - nodeoffset) / 4;
    v' := ReplaceToks(v, k0, k, Nops(m));
    NopsSilent(m, v.strs);
    DelNodeDecodes(v, t, k0, p, k, Nops(m));
    err := 0;
  }

  lemma AlignMultiple(n: nat)
    requires n % 4 == 0
    ensures Align4(n) == n
  {
  }
}
