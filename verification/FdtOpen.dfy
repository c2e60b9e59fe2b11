/** fdt_open_into with separate buffers: any block order, version 16 or 17. */
module FdtOpen {
  import opened Memory
  import opened FdtBytes
  import opened FdtFormat
  import opened FdtBlob
  import opened FdtWalk
  import opened FdtSplice
  import opened FdtReserve
  import opened FdtPack

  /** fdt_check_header. */
  function CheckHeader(h: Header): int {
    if h.magic == FDT_MAGIC then
      if h.version < 16 || h.lastComp > 17 then BADVERSION else 0
    else if h.magic == FDT_SW_MAGIC then
      if h.sizeStruct == 0 then BADSTATE else 0
    else BADMAGIC
  }

  /** _fdt_blocks_misordered. */
  predicate Misordered(h: Header, rsvSize: int, structSize: int) {
    || h.offRsvmap < HEADER
    || h.offStruct < h.offRsvmap + rsvSize
    || h.offStrings < h.offStruct + structSize
    || h.totalsize < h.offStrings + h.sizeStrings
  }

  /** A readable complete blob: the blocks may stand in any order; before version
      17 the header does not record the structure size. */
  ghost predicate Readable(s: seq<byte>, v: View) {
    && HEADER <= |s| && Blocks(s, Hdr(s), v) && Hdr(s).totalsize <= |s|
    && Hdr(s).magic == FDT_MAGIC
    && (Hdr(s).version >= 17 ==> Hdr(s).sizeStruct == Size(v.Toks()))
  }

  lemma ReadableFacts(s: seq<byte>, v: View)
    requires Readable(s, v)
    ensures HEADER <= |s| < TWO31 && WfView(v)
    ensures var h := Hdr(s);
      && h.magic == FDT_MAGIC && h.totalsize <= |s| && h.sizeStrings == |v.strs|
      && h.offRsvmap + 16 * |v.rsv| + 16 <= |s| && h.offStruct + Size(v.Toks()) <= |s| && h.offStrings + |v.strs| <= |s|
      && RsvEnc(s[h.offRsvmap..h.offRsvmap + 16 * |v.rsv| + 16], v.rsv)
      && Encodes(s[h.offStruct..h.offStruct + Size(v.Toks())], v.Toks())
      && s[h.offStrings..h.offStrings + |v.strs|] == v.strs
  {
  }

  lemma TagUnbounded(b: seq<byte>, ts: seq<Token>, k: nat)
    requires Size(ts) <= |b| < TWO31 && Encodes(b[..Size(ts)], ts) && k < |ts|
    ensures TagFrom(b, Size(ts[..k])) == (TagOf(ts[k]), Size(ts[..k + 1]))
  {
    hide Encodes, TagFrom, TokEnc, Size;
    TokenAt(b[..Size(ts)], ts, k);
    SizeAligned(ts[..k]);
    var z := Size(ts[..k]);
    assert b[..Size(ts)][z..z + TokLen(ts[k])] == b[z..z + TokLen(ts[k])];
    TagAtEncoding(b, z, ts[k]);
  }

  /** The walk that finds the structure size of a version 16 blob: no size is
      known, so only the end tag stops it. */
  method StructSize(fdt: array<byte>, base: nat, ghost v: View) returns (size: nat)
    requires base + Size(v.Toks()) <= fdt.Length < TWO31 && End !in v.body
    requires Encodes(fdt[..][base..base + Size(v.Toks())], v.Toks())
    ensures size == Size(v.Toks())
  {
    hide Encodes, TagFrom, Size;
    ghost var ts := v.Toks();
    ghost var b := fdt[base..base + (fdt.Length - base)];
    assert b[..Size(ts)] == fdt[..][base..base + Size(ts)];
    ghost var k := 0;
    assert ts[..|ts|] == ts;
    CursorEnds(v);
    size := 0;
    while true
      invariant 0 <= k < |ts| && size == Size(ts[..k])
      decreases |ts| - k
    {
      TagUnbounded(b, ts, k);
      SizeMonotone(ts, k, |ts|);
      TokIs(v, k);
      var tag, next := NextTagIn(fdt, base, fdt.Length - base, size);
      size := next;
      if tag == FDT_END {
        return;
      }
      k := k + 1;
    }
  }

  /** fdt_open_into: on success the whole buffer is an editable version 17 blob
      with the same map, tree and strings. */
  method OpenInto(fdt: array<byte>, buf: array<byte>, ghost v: View) returns (err: int)
    requires fdt != buf && HEADER <= fdt.Length && buf.Length < TWO31
    requires CheckHeader(Hdr(fdt[..])) == 0 ==> Readable(fdt[..], v)
    modifies buf
    ensures CheckHeader(Hdr(fdt[..])) != 0 ==> err == CheckHeader(Hdr(fdt[..]))
    ensures CheckHeader(Hdr(fdt[..])) == 0 ==>
      var h, m, n := Hdr(fdt[..]), 16 * |v.rsv| + 16, Size(v.Toks());
      var need := if Misordered(h, m, n) then HEADER + m + n + |v.strs| else h.totalsize;
      err == if need > buf.Length then NOSPACE else 0
    ensures err != 0 ==> buf[..] == old(buf[..])
    ensures err == 0 ==>
      && Holds(buf[..], v) && Hdr(buf[..]).version == 17 && Hdr(buf[..]).totalsize == buf.Length
      && Hdr(buf[..]).bootCpuid == Hdr(fdt[..]).bootCpuid
  {
    hide Hdr, Readable, Holds, RsvEnc, Encodes, Size, WfView, MapAt;
    var h := GetHeader(fdt);
    err := CheckHeader(h);
    if err != 0 {
      return;
    }
    ghost var s := fdt[..];
    ReadableFacts(s, v);
    MapIsEnc(s, h.offRsvmap, v.rsv);
    var num := NumMemRsv(fdt, v.rsv);
    var rsvSize := (num + 1) * 16;
    var structSize := h.sizeStruct;
    if h.version < 17 {
      NoEnd(v);
      structSize := StructSize(fdt, h.offStruct, v);
    } else {
      SizeKnown(s, v);
    }
    if !Misordered(h, rsvSize, structSize) {
      if h.totalsize > buf.Length {
        return NOSPACE;
      }
      CopyOrdered(fdt, buf, h, structSize, v);
      return 0;
    }
    if buf.Length < HEADER + rsvSize + structSize + h.sizeStrings {
      return NOSPACE;
    }
    CopyPacked(fdt, buf, h, rsvSize, structSize, v);
    err := 0;
  }

  lemma NoEnd(v: View)
    requires WfView(v)
    ensures End !in v.body
  {
  }

  lemma SizeKnown(s: seq<byte>, v: View)
    requires Readable(s, v) && Hdr(s).version >= 17
    ensures Hdr(s).sizeStruct == Size(v.Toks())
  {
  }

  /** fdt_move and the three header stores: the blocks are already in order. */
  method CopyOrdered(fdt: array<byte>, buf: array<byte>, h: Header, structSize: nat, ghost v: View)
    requires fdt != buf && Readable(fdt[..], v) && h == Hdr(fdt[..]) && h.lastComp <= 17
    requires structSize == Size(v.Toks()) && !Misordered(h, 16 * |v.rsv| + 16, structSize)
    requires HEADER <= h.totalsize <= buf.Length < TWO31
    modifies buf
    ensures Holds(buf[..], v) && Hdr(buf[..]) == h.(version := 17, sizeStruct := structSize, totalsize := buf.Length)
  {
    hide Hdr, Readable, RsvEnc, Encodes, Size, WfView, Has, PutBytes, Holds, Misordered;
    ghost var s := fdt[..];
    ReadableFacts(s, v);
    ghost var b1, b2 := ReadBlocks(s, v);
    OrderedFacts(h, v, structSize);
    Move(fdt, buf, h.totalsize);
    Reheader(buf, structSize, h.offRsvmap, b1, h.offStruct, b2, h.offStrings, v.strs);
    Assemble(buf[..], v, b1, b2);
  }

  lemma ReadBlocks(s: seq<byte>, v: View) returns (b1: seq<byte>, b2: seq<byte>)
    requires Readable(s, v)
    ensures RsvEnc(b1, v.rsv) && |b1| == 16 * |v.rsv| + 16 && Encodes(b2, v.Toks()) && |b2| == Size(v.Toks())
    ensures Has(s, Hdr(s).offRsvmap, b1) && Has(s, Hdr(s).offStruct, b2) && Has(s, Hdr(s).offStrings, v.strs)
  {
    hide Hdr, RsvEnc, Encodes, Size, WfView;
    var h := Hdr(s);
    b1 := s[h.offRsvmap..h.offRsvmap + 16 * |v.rsv| + 16];
    b2 := s[h.offStruct..h.offStruct + Size(v.Toks())];
  }

  lemma OrderedFacts(h: Header, v: View, n: int)
    requires !Misordered(h, 16 * |v.rsv| + 16, n)
    ensures HEADER <= h.offRsvmap && h.offRsvmap + 16 * |v.rsv| + 16 <= h.offStruct
    ensures h.offStruct + n <= h.offStrings && h.offStrings + h.sizeStrings <= h.totalsize
  {
  }

  /** The header stores that follow fdt_move. */
  method Reheader(buf: array<byte>, structSize: u32, ghost o1: int, ghost b1: seq<byte>,
                  ghost o2: int, ghost b2: seq<byte>, ghost o3: int, ghost b3: seq<byte>)
    requires HEADER <= buf.Length < TWO31 && HEADER <= o1 && HEADER <= o2 && HEADER <= o3
    requires Has(buf[..], o1, b1) && Has(buf[..], o2, b2) && Has(buf[..], o3, b3)
    modifies buf
    ensures Has(buf[..], o1, b1) && Has(buf[..], o2, b2) && Has(buf[..], o3, b3)
    ensures Hdr(buf[..]) == old(Hdr(buf[..])).(version := 17, sizeStruct := structSize, totalsize := buf.Length)
  {
    hide Hdr, Has;
    SetOther(buf, VERSION, 17);
    SetOther(buf, SIZE_STRUCT, structSize);
    SetOther(buf, TOTALSIZE, buf.Length);
  }

  /** fdt_move. */
  method Move(fdt: array<byte>, buf: array<byte>, n: nat)
    requires fdt != buf && HEADER <= n <= fdt.Length && n <= buf.Length
    modifies buf
    ensures Hdr(buf[..]) == Hdr(fdt[..])
    ensures forall off, c | HEADER <= off && off + |c| <= n && Has(fdt[..], off, c) :: Has(buf[..], off, c)
  {
    hide Hdr, PutBytes, Has;
    ghost var s, d := fdt[..], buf[..];
    Memcpy(buf, 0, fdt[..n]);
    assert fdt[..n] == s[..n];
    forall off, c | HEADER <= off && off + |c| <= n && Has(s, off, c)
      ensures Has(buf[..], off, c)
    {
      Copied(s, d, n, off, c);
    }
    CopiedHeader(s, d, n);
  }

  lemma Copied(s: seq<byte>, d: seq<byte>, n: nat, off: int, c: seq<byte>)
    requires n <= |s| && n <= |d| && Has(s, off, c) && off + |c| <= n
    ensures Has(PutBytes(d, 0, s[..n]), off, c)
  {
    var r := PutBytes(d, 0, s[..n]);
    assert r[off..off + |c|] == s[off..off + |c|];
  }

  lemma CopiedHeader(s: seq<byte>, d: seq<byte>, n: nat)
    requires HEADER <= n <= |s| && n <= |d|
    ensures Hdr(PutBytes(d, 0, s[..n])) == Hdr(s)
  {
    SameHeader(s, PutBytes(d, 0, s[..n]));
  }

  /** _fdt_packblocks into a fresh buffer and the remaining header stores. */
  method CopyPacked(fdt: array<byte>, buf: array<byte>, h: Header, m: nat, structSize: nat, ghost v: View)
    requires fdt != buf && Readable(fdt[..], v) && h == Hdr(fdt[..]) && m == 16 * |v.rsv| + 16
    requires structSize == Size(v.Toks()) && HEADER + m + structSize + h.sizeStrings <= buf.Length < TWO31
    modifies buf
    ensures Holds(buf[..], v)
    ensures Hdr(buf[..]).version == 17 && Hdr(buf[..]).totalsize == buf.Length && Hdr(buf[..]).bootCpuid == h.bootCpuid
  {
    hide Hdr, Readable, RsvEnc, Encodes, Size, WfView, Has, Holds, PackedAt;
    ghost var s := fdt[..];
    ReadableFacts(s, v);
    var b1 := fdt[h.offRsvmap..h.offRsvmap + m];
    var b2 := fdt[h.offStruct..h.offStruct + structSize];
    var b3 := fdt[h.offStrings..h.offStrings + h.sizeStrings];
    assert b1 == s[h.offRsvmap..h.offRsvmap + m] && b2 == s[h.offStruct..h.offStruct + structSize] && b3 == v.strs;
    PackInto(buf, b1, b2, b3);
    SetWord(buf, MAGIC, FDT_MAGIC, b1, b2, b3);
    SetWord(buf, TOTALSIZE, buf.Length, b1, b2, b3);
    SetWord(buf, VERSION, 17, b1, b2, b3);
    SetWord(buf, LAST_COMP, 16, b1, b2, b3);
    SetWord(buf, BOOT_CPUID, h.bootCpuid, b1, b2, b3);
    PackedHolds(buf[..], v, b1, b2);
  }

  /** _fdt_packblocks into a separate buffer. */
  method PackInto(buf: array<byte>, b1: seq<byte>, b2: seq<byte>, b3: seq<byte>)
    requires HEADER + |b1| + |b2| + |b3| <= buf.Length < TWO31
    modifies buf
    ensures PackedAt(buf[..], b1, b2, b3)
    ensures Hdr(buf[..]) == old(Hdr(buf[..])).(offRsvmap := HEADER, offStruct := HEADER + |b1|, sizeStruct := |b2|,
                                               offStrings := HEADER + |b1| + |b2|, sizeStrings := |b3|)
  {
    hide Hdr, Has;
    WriteBlock(buf, HEADER, b1);
    SetOther(buf, OFF_RSVMAP, HEADER);
    WriteBlock(buf, HEADER + |b1|, b2);
    SetOther(buf, OFF_STRUCT, HEADER + |b1|);
    SetOther(buf, SIZE_STRUCT, |b2|);
    WriteBlock(buf, HEADER + |b1| + |b2|, b3);
    SetOther(buf, OFF_STRINGS, HEADER + |b1| + |b2|);
    SetOther(buf, SIZE_STRINGS, |b3|);
  }

  method WriteBlock(buf: array<byte>, dst: nat, b: seq<byte>)
    requires HEADER <= dst && dst + |b| <= buf.Length
    modifies buf
    ensures Hdr(buf[..]) == old(Hdr(buf[..])) && Has(buf[..], dst, b)
    ensures forall off, c | HEADER <= off && off + |c| <= dst && old(Has(buf[..], off, c)) :: Has(buf[..], off, c)
  {
    hide Hdr, Has;
    ghost var s := buf[..];
    Memcpy(buf, dst, b);
    Written(s, dst, b);
    forall off, c | HEADER <= off && off + |c| <= dst && Has(s, off, c)
      ensures Has(buf[..], off, c)
    {
      WrittenKeeps(s, dst, b, off, c);
    }
  }

  lemma Written(s: seq<byte>, dst: nat, b: seq<byte>)
    requires HEADER <= dst && dst + |b| <= |s|
    ensures Has(PutBytes(s, dst, b), dst, b) && Hdr(PutBytes(s, dst, b)) == Hdr(s)
  {
    SameHeader(s, PutBytes(s, dst, b));
  }

  lemma WrittenKeeps(s: seq<byte>, dst: nat, b: seq<byte>, off: int, c: seq<byte>)
    requires dst + |b| <= |s| && Has(s, off, c) && off + |c| <= dst
    ensures Has(PutBytes(s, dst, b), off, c)
  {
    PutKeeps(s, dst, b, off, off + |c|);
  }
}
