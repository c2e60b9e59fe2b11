/** fdt_sw.c: the sequential writer, from fdt_create to fdt_finish. */
module FdtWriter {
  import opened Memory
  import opened FdtBytes
  import opened FdtTree
  import opened FdtFormat
  import opened FdtBlob
  import opened FdtSplice
  import opened FdtEdit
  import opened FdtDraft

  /** The next store would leave the buffer; no return value of the source. The model of
      a call ends there. */
  const OUTSIDE: int := 1

  /** fdt_create. */
  method Create(buf: array<byte>) returns (err: int)
    requires buf.Length < TWO31
    modifies buf
    ensures err == if buf.Length < HEADER then NOSPACE else 0
    ensures err == 0 ==> Drafts(buf[..], Draft([], [], []))
    ensures err != 0 ==> buf[..] == old(buf[..])
  {
    if buf.Length < HEADER {
      return NOSPACE;
    }
    hide Hdr, Drafts, PutBytes;
    Memzero(buf, 0, buf.Length);
    ZeroHeader(old(buf[..]));
    SetHeader(buf, MAGIC, FDT_SW_MAGIC);
    SetHeader(buf, VERSION, 17);
    SetHeader(buf, LAST_COMP, 16);
    SetHeader(buf, TOTALSIZE, buf.Length);
    SetHeader(buf, OFF_RSVMAP, RSV_START);
    SetHeader(buf, OFF_STRUCT, RSV_START);
    SetHeader(buf, OFF_STRINGS, buf.Length);
    FreshDraft(buf[..]);
    err := 0;
  }

  lemma ZeroHeader(s: seq<byte>)
    requires HEADER <= |s|
    ensures Hdr(PutBytes(s, 0, Zeros(|s|))) == Header(0, 0, 0, 0, 0, 0, 0, 0, 0, 0)
  {
    assert PutBytes(s, 0, Zeros(|s|)) == Zeros(|s|);
  }

  lemma FreshDraft(s: seq<byte>)
    requires HEADER <= |s| < TWO31
    requires Hdr(s) == Header(FDT_SW_MAGIC, |s|, RSV_START, |s|, RSV_START, 17, 16, 0, 0, 0)
    ensures Drafts(s, Draft([], [], []))
  {
    hide Hdr;
    assert Size([]) == 0;
    if Fits(s, Draft([], [], [])) {
      assert s[RSV_START..RSV_START + 0] == [] && s[|s| - 0..] == [];
    }
  }

  /** What the header of a draft says. */
  lemma DraftFacts(s: seq<byte>, d: Draft)
    requires Drafts(s, d)
    ensures HEADER <= |s| < TWO31
    ensures Hdr(s).magic == FDT_SW_MAGIC && Hdr(s).totalsize == |s| && Hdr(s).offStruct == StructStart(d)
    ensures Hdr(s).sizeStruct == Size(d.toks) && Hdr(s).sizeStrings == |d.strs| && Hdr(s).offRsvmap == RSV_START
    ensures Hdr(s).version == 17 && Hdr(s).lastComp == 16 && End !in d.toks
    ensures Fits(s, d) ==> s[|s| - |d.strs|..] == d.strs
  {
  }

  /** Stretches behind the header are read from the tail. */
  lemma TailSlice(s: seq<byte>, s': seq<byte>, x: nat, y: nat)
    requires HEADER <= |s| && |s'| == |s| && s'[HEADER..] == s[HEADER..] && HEADER <= x <= y <= |s|
    ensures s'[x..y] == s[x..y]
  {
    assert s'[HEADER..|s'|] == s'[HEADER..] && s[HEADER..|s|] == s[HEADER..];
    Shifted(s, s', HEADER, |s|, 0, x, y);
  }

  /** fdt_add_reservemap_entry; fdt_finish_reservemap is the entry (0, 0). */
  method AddReservemapEntry(fdt: array<byte>, address: u64, size: u64, ghost d: Draft)
    returns (err: int, ghost d': Draft)
    requires Drafts(fdt[..], d)
    modifies fdt
    ensures Drafts(fdt[..], d') <==> err != 0 || Fits(fdt[..], d')
    ensures err == if d.toks != [] then BADSTATE
                   else if StructStart(d) + 16 > fdt.Length then NOSPACE else 0
    ensures d' == if err == 0 then d.(rsv := d.rsv + [Reserve(address, size)]) else d
  {
    hide Hdr, Drafts, EncWord64, PutBytes, Size;
    d' := d;
    ghost var s := fdt[..];
    TokSize(d);
    DraftFacts(s, d);
    var h := GetHeader(fdt);
    if h.sizeStruct != 0 {
      return BADSTATE, d;
    }
    var offset := h.offStruct;
    if offset + 16 > h.totalsize {
      return NOSPACE, d;
    }
    Memcpy(fdt, offset, EncWord64(address));
    Memcpy(fdt, offset + 8, EncWord64(size));
    ghost var s2 := fdt[..];
    EntryHeader(s, offset, address, size);
    SetHeader(fdt, OFF_STRUCT, offset + 16);
    if Fits(s, d.(rsv := d.rsv + [Reserve(address, size)])) {
      EntryAdded(s, s2, fdt[..], d, address, size);
    }
    MapKept(fdt[..], d.(rsv := d.rsv + [Reserve(address, size)]));
    return 0, d.(rsv := d.rsv + [Reserve(address, size)]);
  }

  lemma MapKept(s: seq<byte>, d: Draft)
    requires d.rsv != []
    ensures Drafts(s, d) ==> Fits(s, d)
  {
  }

  lemma TokSize(d: Draft)
    ensures Size(d.toks) == 0 <==> d.toks == []
  {
    SizeAtLeast(d.toks);
  }

  lemma EntryHeader(s: seq<byte>, o: nat, address: u64, size: u64)
    requires HEADER <= o && o + 16 <= |s|
    ensures Hdr(PutBytes(PutBytes(s, o, EncWord64(address)), o + 8, EncWord64(size))) == Hdr(s)
  {
    hide EncWord64;
    SameHeader(s, PutBytes(PutBytes(s, o, EncWord64(address)), o + 8, EncWord64(size)));
  }

  lemma EntryStrings(s: seq<byte>, s2: seq<byte>, s3: seq<byte>, o: nat, address: u64, size: u64, q: nat)
    requires HEADER <= o && o + 16 <= q <= |s|
    requires s2 == PutBytes(PutBytes(s, o, EncWord64(address)), o + 8, EncWord64(size))
    requires |s3| == |s2| && s3[HEADER..] == s2[HEADER..]
    ensures s3[q..] == s[q..]
  {
    hide EncWord64;
    var s1 := PutBytes(s, o, EncWord64(address));
    PutKeeps(s, o, EncWord64(address), q, |s|);
    PutKeeps(s1, o + 8, EncWord64(size), q, |s|);
    TailSlice(s2, s3, q, |s|);
    assert s3[q..|s|] == s3[q..] && s[q..|s|] == s[q..];
  }

  lemma EntryAdded(s: seq<byte>, s2: seq<byte>, s3: seq<byte>, d: Draft, address: u64, size: u64)
    requires Drafts(s, d) && d.toks == [] && StructStart(d) + 16 + |d.strs| <= |s|
    requires s2 == PutBytes(PutBytes(s, StructStart(d), EncWord64(address)), StructStart(d) + 8, EncWord64(size))
    requires |s3| == |s2| && s3[HEADER..] == s2[HEADER..] && Hdr(s3) == Hdr(s).(offStruct := StructStart(d) + 16)
    ensures Drafts(s3, d.(rsv := d.rsv + [Reserve(address, size)]))
  {
    hide Hdr, Word64, EncWord64;
    var d', o := d.(rsv := d.rsv + [Reserve(address, size)]), StructStart(d);
    assert Size([]) == 0 && s3[o + 16..o + 16 + 0] == [];
    EntryStrings(s, s2, s3, o, address, size, |s| - |d.strs|);
    var s1 := PutBytes(s, o, EncWord64(address));
    TailSlice(s2, s3, HEADER, o);
    TailSlice(s2, s3, o, o + 8);
    TailSlice(s2, s3, o + 8, o + 16);
    PutKeeps(s, o, EncWord64(address), HEADER, o);
    PutKeeps(s1, o + 8, EncWord64(size), HEADER, o);
    PutKeeps(s1, o + 8, EncWord64(size), o, o + 8);
    PutBytesEffect(s, o, EncWord64(address));
    PutBytesEffect(s1, o + 8, EncWord64(size));
    assert EncWord64(address)[0..8] == EncWord64(address) && EncWord64(size)[0..8] == EncWord64(size);
    Word64Slice(s3, o, EncWord64(address), 0);
    Word64Slice(s3, o + 8, EncWord64(size), 0);
    Word64OfEnc(address);
    Word64OfEnc(size);
    forall i | 0 <= i < |d.rsv|
      ensures EntryAt(s3, RSV_START + 16 * i, d'.rsv[i])
    {
      assert EntryAt(s, RSV_START + 16 * i, d.rsv[i]);
      EntryMoved(s, s3, o, RSV_START + 16 * i, d.rsv[i]);
    }
  }

  /** _fdt_grab_space: the address of `len` fresh structure bytes, or -1. */
  method GrabSpace(fdt: array<byte>, len: nat, ghost d: Draft) returns (z: int)
    requires Drafts(fdt[..], d) && len < TWO31
    modifies fdt
    ensures z < 0 <==> Fits(fdt[..], d) && StructStart(d) + Size(d.toks) + len + |d.strs| > fdt.Length
    ensures z < 0 ==> fdt[..] == old(fdt[..])
    ensures z >= 0 ==> z == StructStart(d) + Size(d.toks) && (z + len <= fdt.Length <==> Fits(fdt[..], d))
    ensures z >= 0 && Fits(fdt[..], d) ==> Grown(old(fdt[..]), fdt[..], d, len)
    ensures z >= 0 ==> fdt[HEADER..] == old(fdt[HEADER..]) && Hdr(fdt[..]).sizeStruct == Size(d.toks) + len
  {
    hide Hdr, Drafts, Size;
    DraftFacts(fdt[..], d);
    var h := GetHeader(fdt);
    var spaceleft := h.totalsize - h.offStruct - h.sizeStrings;
    ghost var s := fdt[..];
    SpaceLeft(s, d);
    if h.sizeStruct + len > spaceleft % TWO32 {
      return -1;
    }
    SetHeader(fdt, SIZE_STRUCT, h.sizeStruct + len);
    z := h.offStruct + h.sizeStruct;
    if Fits(s, d) {
      TailSlice(s, fdt[..], HEADER, z);
      TailSlice(s, fdt[..], z + len, |s|);
    }
  }

  /** The space left is compared without its sign. */
  lemma SpaceLeft(s: seq<byte>, d: Draft)
    requires Drafts(s, d)
    ensures var left := |s| - StructStart(d) - |d.strs|;
      if Fits(s, d) then Size(d.toks) <= left == left % TWO32
      else d == Draft([], [], []) && Size(d.toks) == 0 && |s| < RSV_START && left % TWO32 >= TWO32 - 8
  {
    hide Hdr, Parts, NamesOk, EntryAt;
    assert Size([]) == 0;
  }

  /** A fresh draft in 40 bytes: any request of the structure block is granted, from
      byte 48 on. */
  lemma GrantedOutside(s: seq<byte>, len: nat)
    requires Drafts(s, Draft([], [], [])) && |s| == HEADER && len < TWO31
    ensures var h := Hdr(s);
      && (h.totalsize - h.offStruct - h.sizeStrings) % TWO32 == TWO32 - 8 >= h.sizeStruct + len
      && h.offStruct + h.sizeStruct == 48 > |s|
  {
    hide Hdr;
    assert Size([]) == 0;
  }

  /** fdt_begin_node. */
  method BeginNode(fdt: array<byte>, name: Name, ghost d: Draft) returns (err: int, ghost d': Draft)
    requires Drafts(fdt[..], d) && 0 !in name && |name| < TWO31 - 8
    modifies fdt
    ensures err == if !Fits(old(fdt[..]), d) then OUTSIDE
                   else if StructStart(d) + Size(d.toks) + TokLen(Begin(name)) + |d.strs| > fdt.Length then NOSPACE
                   else 0
    ensures err != OUTSIDE ==> Drafts(fdt[..], d') && Fits(fdt[..], d') && d'.rsv == d.rsv
    ensures err != 0 ==> d' == d
    ensures err == 0 ==> Size(d'.toks) == Size(d.toks) + TokLen(Begin(name)) && d'.strs == d.strs
    ensures DraftEvents(d') == DraftEvents(d) + if err == 0 then [EBegin(name)] else []
  {
    hide Drafts, Size, Grown, PutBytes, TokEnc, DraftEvents, Word;
    ghost var s := fdt[..];
    var z := GrabSpace(fdt, 4 + Align4(|name| + 1), d);
    if z < 0 {
      return NOSPACE, d;
    } else if z + 4 + Align4(|name| + 1) > fdt.Length {
      return OUTSIDE, d;
    }
    WriteDraftBegin(fdt, z, name, s, d);
    AppendToken(s, fdt[..], d, Begin(name));
    AppendFits(s, d, Begin(name));
    DraftEventsSnoc(d, Begin(name));
    return 0, d.(toks := d.toks + [Begin(name)]);
  }

  method WriteDraftBegin(fdt: array<byte>, z: nat, name: Name, ghost s: seq<byte>, ghost d: Draft)
    requires 0 !in name && Grown(s, fdt[..], d, TokLen(Begin(name))) && z == StructStart(d) + Size(d.toks)
    modifies fdt
    ensures Grown(s, fdt[..], d, TokLen(Begin(name))) && z + TokLen(Begin(name)) <= fdt.Length
    ensures TokEnc(fdt[..][z..z + TokLen(Begin(name))], Begin(name))
  {
    hide Word, Grown, PutBytes, Size;
    ghost var n := TokLen(Begin(name));
    ghost var s1 := fdt[..];
    GrownBounds(s, s1, d, n);
    StoreWord(fdt, z, FDT_BEGIN_NODE);
    ghost var s2 := fdt[..];
    Memcpy(fdt, z + 4, name + [0]);
    GrownWrite(s, s1, d, n, z, EncWord(FDT_BEGIN_NODE));
    GrownWrite(s, s2, d, n, z + 4, name + [0]);
    PutWordEffect(s1, z, FDT_BEGIN_NODE);
    PutBytesEffect(s2, z + 4, name + [0]);
    WrittenName(s2, z + 4, name);
    BeginEncoded(fdt[..], z, name);
  }

  lemma AppendFits(s: seq<byte>, d: Draft, t: Token)
    requires StructStart(d) + Size(d.toks) + TokLen(t) + |d.strs| <= |s|
    ensures Fits(s, d.(toks := d.toks + [t])) && Size(d.toks + [t]) == Size(d.toks) + TokLen(t)
  {
    hide Size;
    SizeConcat(d.toks, [t]);
    SizeOne(t);
  }

  /** fdt_end_node. */
  method EndNodeTag(fdt: array<byte>, ghost d: Draft) returns (err: int, ghost d': Draft)
    requires Drafts(fdt[..], d)
    modifies fdt
    ensures err == if !Fits(old(fdt[..]), d) then OUTSIDE
                   else if StructStart(d) + Size(d.toks) + 4 + |d.strs| > fdt.Length then NOSPACE else 0
    ensures err != OUTSIDE ==> Drafts(fdt[..], d') && Fits(fdt[..], d') && d'.rsv == d.rsv
    ensures err != 0 ==> d' == d
    ensures err == 0 ==> Size(d'.toks) == Size(d.toks) + 4 && d'.strs == d.strs
    ensures DraftEvents(d') == DraftEvents(d) + if err == 0 then [EEnd] else []
  {
    hide Drafts, Size, Grown, PutBytes, DraftEvents, Word;
    ghost var s := fdt[..];
    var z := GrabSpace(fdt, 4, d);
    if z < 0 {
      return NOSPACE, d;
    } else if z + 4 > fdt.Length {
      return OUTSIDE, d;
    }
    ghost var s1 := fdt[..];
    GrownBounds(s, s1, d, 4);
    StoreWord(fdt, z, FDT_END_NODE);
    GrownWrite(s, s1, d, 4, z, EncWord(FDT_END_NODE));
    PutWordEffect(s1, z, FDT_END_NODE);
    WordAtSlice(fdt[..], z, 4, 0);
    AppendToken(s, fdt[..], d, EndNode);
    AppendFits(s, d, EndNode);
    DraftEventsSnoc(d, EndNode);
    return 0, d.(toks := d.toks + [EndNode]);
  }

  // ----- Properties

  /** The strings after a name was looked up: a new one goes below the others. */
  ghost function Pooled(strs: seq<byte>, name: Name): (r: seq<byte>)
    ensures |r| == |strs| + StringGrowth(strs, name)
  {
    if exists off: nat :: IsStr(strs, off, name) then strs else (name + [0]) + strs
  }

  /** _fdt_find_add_string of the writer: a negative offset from the end of the
      buffer, or 0 when there is no room. The comparison is unsigned, so a new name that
      would start below the buffer passes it. */
  method FindAddName(fdt: array<byte>, name: Name, ghost d: Draft) returns (r: int, ghost d': Draft)
    requires Drafts(fdt[..], d) && 0 !in name && |name| < TWO31 - 8
    modifies fdt
    ensures r == OUTSIDE || r <= 0
    ensures r == OUTSIDE <==> |d.strs| + StringGrowth(d.strs, name) > fdt.Length
    ensures r < 0 <==> StructStart(d) + Size(d.toks) + |d.strs| + StringGrowth(d.strs, name) <= fdt.Length
    ensures r <= 0 ==> Drafts(fdt[..], d') && d'.rsv == d.rsv && d'.toks == d.toks
    ensures DraftEvents(d') == DraftEvents(d)
    ensures r >= 0 ==> d' == d && fdt[..] == old(fdt[..])
    ensures r < 0 ==> Fits(fdt[..], d') && -|d'.strs| <= r && IsStr(d'.strs, |d'.strs| + r, name)
    ensures r < 0 ==> d'.strs == Pooled(d.strs, name)
  {
    hide Hdr, Drafts, Size, DraftEvents, IsStr, PutBytes;
    ghost var s := fdt[..];
    DraftFacts(s, d);
    SpaceLeft(s, d);
    var h := GetHeader(fdt);
    var total: int, strtabsize: int := h.totalsize, h.sizeStrings;
    var base := total - strtabsize;
    assert fdt[base..total] == s[|s| - |d.strs|..] == d.strs;
    var p := FindString(fdt, base, fdt[base..total], name);
    if p >= 0 {
      StrBound(d.strs, p, name);
      return p - strtabsize, d;
    }
    var offset := -strtabsize - (|name| + 1);
    if (total + offset) % TWO32 < h.offStruct + h.sizeStruct {
      return 0, d;
    } else if total + offset < 0 {
      return OUTSIDE, d;
    }
    Memcpy(fdt, total + offset, name + [0]);
    ghost var s1 := fdt[..];
    HighWrite(s, total + offset, name + [0]);
    SetHeader(fdt, SIZE_STRINGS, strtabsize + |name| + 1);
    NameAdded(s, s1, fdt[..], d, name);
    return offset, d.(strs := (name + [0]) + d.strs);
  }

  lemma HighWrite(s: seq<byte>, x: nat, b: seq<byte>)
    requires HEADER <= x && x + |b| <= |s|
    ensures Hdr(PutBytes(s, x, b)) == Hdr(s)
  {
    SameHeader(s, PutBytes(s, x, b));
  }

  lemma NameAdded(s: seq<byte>, s1: seq<byte>, s2: seq<byte>, d: Draft, name: Name)
    requires Drafts(s, d) && Fits(s, d) && 0 !in name
    requires StructStart(d) + Size(d.toks) + |d.strs| + |name| + 1 <= |s|
    requires s1 == PutBytes(s, |s| - |d.strs| - |name| - 1, name + [0])
    requires |s2| == |s1| && s2[HEADER..] == s1[HEADER..]
    requires |d.strs| + |name| + 1 < TWO32 && Hdr(s2) == Hdr(s).(sizeStrings := |d.strs| + |name| + 1)
    ensures var d' := d.(strs := (name + [0]) + d.strs);
      Drafts(s2, d') && DraftEvents(d') == DraftEvents(d) && IsStr(d'.strs, 0, name)
  {
    hide Hdr, Encodes, Size, Events, EntryAt, NamesOk;
    var d' := d.(strs := (name + [0]) + d.strs);
    EventsPrepended(d.toks, name + [0], d.strs);
    var o, z, q := StructStart(d), StructStart(d) + Size(d.toks), |s| - |d'.strs|;
    assert s1[HEADER..q] == s[HEADER..q];
    TailSlice(s1, s2, HEADER, q);
    TailSlice(s1, s2, q, |s1|);
    Shifted(s, s2, HEADER, q, 0, o, z);
    assert s2[q..] == s2[q..|s2|] && s1[q..] == s1[q..|s1|];
    assert s1[q..] == (name + [0]) + s[|s| - |d.strs|..];
    forall i | 0 <= i < |d.rsv|
      ensures EntryAt(s2, RSV_START + 16 * i, d.rsv[i])
    {
      EntryMoved(s, s2, q, RSV_START + 16 * i, d.rsv[i]);
    }
    assert d'.strs[0..|name|] == name;
  }

  /** fdt_property. */
  method WriteProperty(fdt: array<byte>, name: Name, value: seq<byte>, ghost d: Draft)
    returns (err: int, ghost d': Draft)
    requires Drafts(fdt[..], d) && 0 !in name && |name| < TWO31 - 8 && |value| < TWO31 - 16
    modifies fdt
    ensures var need := StructStart(d) + Size(d.toks) + 12 + Align4(|value|) + |d.strs| + StringGrowth(d.strs, name);
      err == if |d.strs| + StringGrowth(d.strs, name) > fdt.Length then OUTSIDE
             else if need > fdt.Length then NOSPACE else 0
    ensures err != OUTSIDE ==> Drafts(fdt[..], d') && d'.rsv == d.rsv && (Fits(old(fdt[..]), d) ==> Fits(fdt[..], d'))
    ensures err == OUTSIDE ==> d' == d
    ensures err == 0 ==> Size(d'.toks) == Size(d.toks) + 12 + Align4(|value|) && d'.strs == Pooled(d.strs, name)
    ensures DraftEvents(d') == DraftEvents(d) + if err == 0 then [EProp(name, value)] else []
  {
    hide Drafts, Size, Grown, PutBytes, TokEnc, DraftEvents, Word, IsStr, StringGrowth;
    var nameoff, d1 := FindAddName(fdt, name, d);
    if nameoff == OUTSIDE {
      return OUTSIDE, d;
    } else if nameoff == 0 {
      return NOSPACE, d;
    }
    ghost var s := fdt[..];
    StructBounds(s, d1);
    var z := GrabSpace(fdt, 12 + Align4(|value|), d1);
    if z < 0 {
      return NOSPACE, d1;
    }
    WriteDraftProp(fdt, z, TWO32 + nameoff, value, s, d1);
    NegativeName(d1.strs, nameoff, name);
    ghost var t := Prop(TWO32 + nameoff, value);
    AppendToken(s, fdt[..], d1, t);
    AppendFits(s, d1, t);
    DraftEventsSnoc(d1, t);
    return 0, d1.(toks := d1.toks + [t]);
  }

  lemma StructBounds(s: seq<byte>, d: Draft)
    requires Drafts(s, d) && Fits(s, d)
    ensures |d.strs| < TWO31 && |s| < TWO31
  {
  }

  lemma NegativeName(strs: seq<byte>, r: int, name: Name)
    requires -|strs| <= r < 0 && |strs| < TWO31 && IsStr(strs, |strs| + r, name)
    ensures NameOk(TWO32 + r, strs)
    ensures EventOf(Fix(Prop(TWO32 + r, []), |strs|), strs) == [EProp(name, [])]
    ensures NameAt(strs, (TWO32 + r + |strs|) % TWO32) == name
  {
    hide Terminated, NameAt, IsStr;
    NameIs(strs, |strs| + r, name);
    Wraps(TWO32 + r, |strs|);
  }

  method WriteDraftProp(fdt: array<byte>, z: nat, nameoff: u32, value: seq<byte>, ghost s: seq<byte>, ghost d: Draft)
    requires |value| < TWO32 && Grown(s, fdt[..], d, 12 + Align4(|value|)) && z == StructStart(d) + Size(d.toks)
    modifies fdt
    ensures Grown(s, fdt[..], d, 12 + Align4(|value|)) && z + 12 + Align4(|value|) <= fdt.Length
    ensures TokEnc(fdt[..][z..z + TokLen(Prop(nameoff, value))], Prop(nameoff, value))
  {
    hide Word, Grown, PutBytes, Size;
    ghost var n := 12 + Align4(|value|);
    ghost var s1 := fdt[..];
    GrownBounds(s, s1, d, n);
    StoreWord(fdt, z, FDT_PROP);
    ghost var s2 := fdt[..];
    StoreWord(fdt, z + 8, nameoff);
    ghost var s3 := fdt[..];
    StoreWord(fdt, z + 4, |value|);
    ghost var s4 := fdt[..];
    Memcpy(fdt, z + 12, value);
    GrownWrite(s, s1, d, n, z, EncWord(FDT_PROP));
    GrownWrite(s, s2, d, n, z + 8, EncWord(nameoff));
    GrownWrite(s, s3, d, n, z + 4, EncWord(|value|));
    GrownWrite(s, s4, d, n, z + 12, value);
    PutWordEffect(s1, z, FDT_PROP);
    PutWordEffect(s2, z + 8, nameoff);
    PutWordEffect(s3, z + 4, |value|);
    PutBytesEffect(s4, z + 12, value);
    PropEncoded(fdt[..], z, nameoff, value);
  }
}
