/** fdt_pack and fdt_open_into: moving the three blocks without changing what
    they say. */
module FdtPack {
  import opened Memory
  import opened FdtBytes
  import opened FdtFormat
  import opened FdtBlob
  import opened FdtSplice
  import opened FdtReserve

  /** `b` is stored at `off`. */
  ghost predicate Has(s: seq<byte>, off: int, b: seq<byte>) {
    0 <= off && off + |b| <= |s| && s[off..off + |b|] == b
  }

  /** The blocks stand one after the other right behind the header. */
  ghost predicate PackedAt(s: seq<byte>, b1: seq<byte>, b2: seq<byte>, b3: seq<byte>) {
    Has(s, HEADER, b1) && Has(s, HEADER + |b1|, b2) && Has(s, HEADER + |b1| + |b2|, b3)
  }

  lemma Assemble(s: seq<byte>, v: View, b1: seq<byte>, b2: seq<byte>)
    requires HEADER <= |s| < TWO31 && WfView(v)
    requires RsvEnc(b1, v.rsv) && Encodes(b2, v.Toks())
    requires var h := Hdr(s);
      && Has(s, h.offRsvmap, b1) && Has(s, h.offStruct, b2) && Has(s, h.offStrings, v.strs)
      && HEADER <= h.offRsvmap && h.offRsvmap + |b1| <= h.offStruct && h.offStruct + |b2| <= h.offStrings
      && h.offStrings + |v.strs| <= h.totalsize <= |s|
      && h.sizeStruct == |b2| && h.sizeStrings == |v.strs|
      && h.magic == FDT_MAGIC && h.version >= 17 && h.lastComp <= 17
    ensures Holds(s, v)
  {
    hide Hdr, Encodes, WfView, Size;
    EncodesSize(b2, v.Toks());
  }

  lemma PackedHolds(s: seq<byte>, v: View, b1: seq<byte>, b2: seq<byte>)
    requires HEADER <= |s| < TWO31 && WfView(v)
    requires RsvEnc(b1, v.rsv) && Encodes(b2, v.Toks()) && PackedAt(s, b1, b2, v.strs)
    requires var h := Hdr(s);
      && h.offRsvmap == HEADER && h.offStruct == HEADER + |b1| && h.offStrings == HEADER + |b1| + |b2|
      && h.sizeStruct == |b2| && h.sizeStrings == |v.strs|
      && h.offStrings + |v.strs| <= h.totalsize <= |s|
      && h.magic == FDT_MAGIC && h.version >= 17 && h.lastComp <= 17
    ensures Holds(s, v)
  {
    hide Hdr, Encodes, WfView, Size, Holds, RsvEnc, Has;
    MapLength(b1, v.rsv);
    Assemble(s, v, b1, b2);
  }

  lemma MapLength(b: seq<byte>, rsv: seq<Reserve>)
    requires RsvEnc(b, rsv)
    ensures |b| == 16 * |rsv| + 16
  {
  }

  lemma BlocksOf(s: seq<byte>, v: View)
    requires Holds(s, v)
    ensures var h := Hdr(s);
      && h.offRsvmap + 16 * |v.rsv| + 16 <= |s| && h.offStruct + h.sizeStruct <= |s| && h.offStrings + |v.strs| <= |s|
      && RsvEnc(s[h.offRsvmap..h.offRsvmap + 16 * |v.rsv| + 16], v.rsv)
      && Encodes(s[h.offStruct..h.offStruct + h.sizeStruct], v.Toks())
      && s[h.offStrings..h.offStrings + |v.strs|] == v.strs
  {
  }

  /** fdt_pack: three overlapping moves downwards. The contents stay the same and
      the total size becomes exactly what they take. */
  method Pack(fdt: array<byte>, ghost v: View)
    requires Holds(fdt[..], v)
    modifies fdt
    ensures Holds(fdt[..], v)
    ensures Hdr(fdt[..]).totalsize == DataSize(fdt[..]) == HEADER + 16 * |v.rsv| + 16 + Size(v.Toks()) + |v.strs|
    ensures Hdr(fdt[..]).totalsize <= old(Hdr(fdt[..])).totalsize
    ensures Hdr(fdt[..]).bootCpuid == old(Hdr(fdt[..])).bootCpuid
  {
    hide Holds, Hdr, RsvEnc, Encodes, MapAt, Size, WfView, PackedAt, Has;
    RwCheckHeader(fdt, v);
    ghost var s := fdt[..];
    Layout(s, v);
    BlocksOf(s, v);
    var h := GetHeader(fdt);
    MapIsEnc(s, h.offRsvmap, v.rsv);
    var num := NumMemRsv(fdt, v.rsv);
    var m := (num + 1) * 16;
    ghost var b1, b2 := NamedBlocks(s, v);
    MapLength(b1, v.rsv);
    EncodesSize(b2, v.Toks());
    PackBlocks(fdt, h, m, b1, b2, v.strs);
    SetWord(fdt, TOTALSIZE, HEADER + m + h.sizeStruct + h.sizeStrings, b1, b2, v.strs);
    PackedHolds(fdt[..], v, b1, b2);
  }

  /** The blocks of a complete blob. */
  lemma NamedBlocks(s: seq<byte>, v: View) returns (b1: seq<byte>, b2: seq<byte>)
    requires Holds(s, v)
    ensures HEADER <= |s| && RsvEnc(b1, v.rsv) && Encodes(b2, v.Toks())
    ensures Has(s, Hdr(s).offRsvmap, b1) && Has(s, Hdr(s).offStruct, b2) && Has(s, Hdr(s).offStrings, v.strs)
  {
    hide Hdr, RsvEnc, Encodes, Size, WfView;
    var h := Hdr(s);
    b1 := s[h.offRsvmap..h.offRsvmap + 16 * |v.rsv| + 16];
    b2 := s[h.offStruct..h.offStruct + h.sizeStruct];
  }

  /** A header store keeps the packed blocks. */
  method SetWord(fdt: array<byte>, w: nat, x: u32, ghost b1: seq<byte>, ghost b2: seq<byte>, ghost b3: seq<byte>)
    requires HEADER <= fdt.Length && w % 4 == 0 && w < HEADER && PackedAt(fdt[..], b1, b2, b3)
    modifies fdt
    ensures Hdr(fdt[..]) == SetField(old(Hdr(fdt[..])), w, x) && PackedAt(fdt[..], b1, b2, b3)
  {
    hide Hdr, SetField;
    ghost var s := fdt[..];
    SetHeader(fdt, w, x);
    HeaderHas(s, fdt[..], HEADER, b1);
    HeaderHas(s, fdt[..], HEADER + |b1|, b2);
    HeaderHas(s, fdt[..], HEADER + |b1| + |b2|, b3);
  }

  lemma HeaderHas(s: seq<byte>, s': seq<byte>, off: int, b: seq<byte>)
    requires Has(s, off, b) && HEADER <= off && HEADER <= |s'| && |s'| == |s| && s'[HEADER..] == s[HEADER..]
    ensures Has(s', off, b)
  {
    assert s'[HEADER..|s'|] == s'[HEADER..] && s[HEADER..|s|] == s[HEADER..];
    Shifted(s, s', HEADER, |s|, 0, off, off + |b|);
  }

  /** _fdt_packblocks inside one buffer whose blocks are in order. */
  method PackBlocks(fdt: array<byte>, h: Header, m: nat, ghost b1: seq<byte>, ghost b2: seq<byte>, ghost b3: seq<byte>)
    requires HEADER <= fdt.Length < TWO31 && h == Hdr(fdt[..])
    requires HEADER <= h.offRsvmap && h.offRsvmap + m <= h.offStruct
    requires h.offStruct + h.sizeStruct <= h.offStrings && h.offStrings + h.sizeStrings <= fdt.Length
    requires |b1| == m && |b2| == h.sizeStruct && |b3| == h.sizeStrings
    requires Has(fdt[..], h.offRsvmap, b1) && Has(fdt[..], h.offStruct, b2) && Has(fdt[..], h.offStrings, b3)
    modifies fdt
    ensures PackedAt(fdt[..], b1, b2, b3)
    ensures Hdr(fdt[..]) == h.(offRsvmap := HEADER, offStruct := HEADER + m, offStrings := HEADER + m + h.sizeStruct)
  {
    hide Hdr, Has;
    var structOff := HEADER + m;
    var stringsOff := structOff + h.sizeStruct;
    MoveBlock(fdt, HEADER, h.offRsvmap, m, OFF_RSVMAP, b1);
    MoveBlock(fdt, structOff, h.offStruct, h.sizeStruct, OFF_STRUCT, b2);
    SetOther(fdt, SIZE_STRUCT, h.sizeStruct);
    MoveBlock(fdt, stringsOff, h.offStrings, h.sizeStrings, OFF_STRINGS, b3);
    SetOther(fdt, SIZE_STRINGS, h.sizeStrings);
  }

  method SetOther(fdt: array<byte>, w: nat, x: u32)
    requires HEADER <= fdt.Length && w % 4 == 0 && w < HEADER
    modifies fdt
    ensures Hdr(fdt[..]) == SetField(old(Hdr(fdt[..])), w, x)
    ensures forall off, b | HEADER <= off && old(Has(fdt[..], off, b)) :: Has(fdt[..], off, b)
  {
    hide Hdr, SetField, Has;
    ghost var s := fdt[..];
    SetHeader(fdt, w, x);
    assert fdt[..][HEADER..] == fdt[HEADER..] == s[HEADER..];
    forall off, b | HEADER <= off && Has(s, off, b)
      ensures Has(fdt[..], off, b)
    {
      HeaderHas(s, fdt[..], off, b);
    }
  }

  /** One block move, then the header word that records where the block went:
      everything outside the destination stays. */
  method MoveBlock(fdt: array<byte>, dst: nat, src: nat, len: nat, w: nat, ghost b: seq<byte>)
    requires HEADER <= dst < TWO32 && dst + len <= fdt.Length && src + len <= fdt.Length
    requires w % 4 == 0 && w < HEADER && |b| == len && Has(fdt[..], src, b)
    modifies fdt
    ensures Hdr(fdt[..]) == SetField(old(Hdr(fdt[..])), w, dst)
    ensures Has(fdt[..], dst, b)
    ensures forall off, c | HEADER <= off && (off + |c| <= dst || dst + len <= off) && old(Has(fdt[..], off, c)) ::
      Has(fdt[..], off, c)
  {
    hide Hdr, SetField, Has, MoveBytes;
    ghost var s := fdt[..];
    Memmove(fdt, dst, src, len);
    ghost var s1 := fdt[..];
    forall off, c | HEADER <= off && (off + |c| <= dst || dst + len <= off) && Has(s, off, c)
      ensures Has(s1, off, c)
    {
      MoveHas(s, dst, src, len, off, c);
    }
    MoveTo(s, dst, src, len, b);
    SetOther(fdt, w, dst);
  }

  lemma MoveHas(s: seq<byte>, dst: nat, src: nat, len: nat, off: int, c: seq<byte>)
    requires dst + len <= |s| && src + len <= |s| && Has(s, off, c) && (off + |c| <= dst || dst + len <= off)
    ensures Has(MoveBytes(s, dst, src, len), off, c)
  {
    PutKeeps(s, dst, s[src..src + len], off, off + |c|);
  }

  lemma MoveTo(s: seq<byte>, dst: nat, src: nat, len: nat, b: seq<byte>)
    requires HEADER <= dst && dst + len <= |s| && src + len <= |s| && |b| == len && Has(s, src, b)
    ensures Has(MoveBytes(s, dst, src, len), dst, b) && Hdr(MoveBytes(s, dst, src, len)) == Hdr(s)
  {
    var r := MoveBytes(s, dst, src, len);
    assert r[dst..dst + len] == s[src..src + len];
    SameHeader(s, r);
  }
}
