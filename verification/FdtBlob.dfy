/** A blob in a flat buffer: the ten header words, the placement of the three
    blocks, and fdt_next_tag, the reader every other routine is built on. */
module FdtBlob {
  import opened Memory
  import opened FdtBytes
  import opened FdtTree
  import opened FdtFormat

  const FDT_MAGIC: u32 := 0xd00d_feed
  const FDT_SW_MAGIC: u32 := 0x2ff2_0112 // ~FDT_MAGIC

  // Negated error codes
  const NOTFOUND: int := -1
  const EXISTS: int := -2
  const NOSPACE: int := -3
  const BADOFFSET: int := -4
  const BADSTATE: int := -7
  const TRUNCATED: int := -8
  const BADMAGIC: int := -9
  const BADVERSION: int := -10
  const BADSTRUCTURE: int := -11
  const INTERNAL: int := -13

  // Byte offsets of the header words
  const MAGIC: nat := 0
  const TOTALSIZE: nat := 4
  const OFF_STRUCT: nat := 8
  const OFF_STRINGS: nat := 12
  const OFF_RSVMAP: nat := 16
  const VERSION: nat := 20
  const LAST_COMP: nat := 24
  const BOOT_CPUID: nat := 28
  const SIZE_STRINGS: nat := 32
  const SIZE_STRUCT: nat := 36
  const HEADER: nat := 40 // sizeof(struct fdt_header)

  datatype Header = Header(magic: u32, totalsize: u32, offStruct: u32, offStrings: u32, offRsvmap: u32,
                           version: u32, lastComp: u32, bootCpuid: u32, sizeStrings: u32, sizeStruct: u32)

  function Hdr(s: seq<byte>): Header
    requires HEADER <= |s|
  {
    Header(Word(s, MAGIC), Word(s, TOTALSIZE), Word(s, OFF_STRUCT), Word(s, OFF_STRINGS), Word(s, OFF_RSVMAP),
           Word(s, VERSION), Word(s, LAST_COMP), Word(s, BOOT_CPUID), Word(s, SIZE_STRINGS), Word(s, SIZE_STRUCT))
  }

  /** The effect of storing one header word. */
  function SetField(h: Header, w: nat, x: u32): Header {
    if w == MAGIC then h.(magic := x)
    else if w == TOTALSIZE then h.(totalsize := x)
    else if w == OFF_STRUCT then h.(offStruct := x)
    else if w == OFF_STRINGS then h.(offStrings := x)
    else if w == OFF_RSVMAP then h.(offRsvmap := x)
    else if w == VERSION then h.(version := x)
    else if w == LAST_COMP then h.(lastComp := x)
    else if w == BOOT_CPUID then h.(bootCpuid := x)
    else if w == SIZE_STRINGS then h.(sizeStrings := x)
    else if w == SIZE_STRUCT then h.(sizeStruct := x)
    else h
  }

  lemma StoreField(s: seq<byte>, w: nat, x: u32)
    requires HEADER <= |s| && w % 4 == 0 && w < HEADER
    ensures Hdr(PutWord(s, w, x)) == SetField(Hdr(s), w, x)
    ensures forall i | HEADER <= i < |s| :: PutWord(s, w, x)[i] == s[i]
  {
    PutWordEffect(s, w, x);
  }

  /** The header is a function of the first forty bytes. */
  lemma SameHeader(s: seq<byte>, s': seq<byte>)
    requires HEADER <= |s| && HEADER <= |s'|
    requires forall i | 0 <= i < HEADER :: s[i] == s'[i]
    ensures Hdr(s') == Hdr(s)
  {
  }

  /** What a complete blob says: the reserve map, the structure tokens before
      FDT_END, and the strings block. */
  datatype View = View(rsv: seq<Reserve>, body: seq<Token>, strs: seq<byte>) {
    function Toks(): seq<Token> {
      body + [End]
    }

    ghost function Ev(): seq<Event> {
      Events(body, strs)
    }
  }

  ghost predicate WfView(v: View) {
    Resolvable(v.body, v.strs) && End !in v.body
  }

  /** The blob's tree is `t`. */
  ghost predicate DecodesTo(v: View, t: Node) {
    v.Ev() == Flat(t)
  }

  /** A blob decodes to at most one tree. */
  lemma DecodeUnique(v: View, t: Node, u: Node)
    requires DecodesTo(v, t) && DecodesTo(v, u)
    ensures t == u
  {
    assert Flat(t) + [] == Flat(t) && Flat(u) + [] == Flat(u);
    FlatUnique(t, u, [], []);
  }

  function Block(s: seq<byte>, off: int, size: int): seq<byte>
    requires 0 <= off && 0 <= size && off + size <= |s|
  {
    s[off..off + size]
  }

  /** The three blocks, placed as `h` says, lie inside the buffer and hold `v`. */
  ghost predicate Blocks(s: seq<byte>, h: Header, v: View) {
    && HEADER <= |s| < TWO31
    && WfView(v)
    && h.offRsvmap + 16 * |v.rsv| + 16 <= |s|
    && RsvEnc(Block(s, h.offRsvmap, 16 * |v.rsv| + 16), v.rsv)
    && h.offStruct + Size(v.Toks()) <= |s|
    && Encodes(Block(s, h.offStruct, Size(v.Toks())), v.Toks())
    && h.sizeStrings == |v.strs|
    && h.offStrings + |v.strs| <= |s|
    && Block(s, h.offStrings, |v.strs|) == v.strs
  }

  /** Header, then reserve map, structure and strings, in this order and without
      overlap, all inside totalsize. */
  ghost predicate Ordered(h: Header, v: View) {
    && HEADER <= h.offRsvmap
    && h.offRsvmap + 16 * |v.rsv| + 16 <= h.offStruct
    && h.offStruct + Size(v.Toks()) <= h.offStrings
    && h.offStrings + |v.strs| <= h.totalsize
  }

  ghost predicate HoldsAt(s: seq<byte>, h: Header, v: View) {
    && Blocks(s, h, v)
    && Ordered(h, v)
    && h.totalsize <= |s|
    && h.magic == FDT_MAGIC
    && h.version >= 17
    && h.lastComp <= 17
    && h.sizeStruct == Size(v.Toks())
  }

  /** A complete, well-formed, editable blob. */
  ghost predicate Holds(s: seq<byte>, v: View) {
    HEADER <= |s| && HoldsAt(s, Hdr(s), v)
  }

  /** Bytes in use: fdt_off_dt_strings + fdt_size_dt_strings. */
  ghost function DataSize(s: seq<byte>): int
    requires HEADER <= |s|
  {
    Hdr(s).offStrings + Hdr(s).sizeStrings
  }

  // ----- fdt_offset_ptr and fdt_next_tag

  /** The bounds test of fdt_offset_ptr in the source's unsigned arithmetic: the
      sum must not wrap below the offset and must stay in the block. */
  predicate OffsetPtr32(size: nat, offset: i32, len: u32)
    requires size < TWO31
  {
    var o: int := if offset < 0 then offset + TWO32 else offset;
    var e: int := (o + len) % TWO32;
    !(e < o) && !(e > size)
  }

  predicate OffsetOk(size: nat, offset: int, len: int) {
    0 <= offset && offset + len <= size
  }

  /** The wrapping test accepts exactly the ranges inside the block. */
  lemma OffsetPtrExact(size: nat, offset: i32, len: u32)
    requires size < TWO31
    ensures OffsetPtr32(size, offset, len) <==> OffsetOk(size, offset, len)
  {
  }

  /** Length of the run of non-NUL bytes from `i`, or -1 when no NUL follows. */
  function NulFrom(b: seq<byte>, i: nat): (r: int)
    ensures r >= 0 ==> i + r < |b| && b[i + r] == 0 && forall j | i <= j < i + r :: b[j] != 0
    ensures r < 0 ==> forall j | i <= j < |b| :: b[j] != 0
    decreases |b| - i
  {
    if i >= |b| then -1
    else if b[i] == 0 then 0
    else
      var r := NulFrom(b, i + 1);
      if r < 0 then -1 else r + 1
  }

  /** What fdt_next_tag returns for any bytes `b` and any offset: the tag and the
      following offset. A property length is added modulo 2^32. */
  function TagFrom(b: seq<byte>, start: int): (int, int) {
    if !OffsetOk(|b|, start, 4) then (FDT_END, TRUNCATED)
    else
      var tag := Word(b, start);
      if tag == FDT_BEGIN_NODE then
        var n := NulFrom(b, start + 4);
        if n < 0 then (FDT_END, BADSTRUCTURE) else (tag, Align4(start + 4 + n + 1))
      else if tag == FDT_PROP then
        if !OffsetOk(|b|, start + 4, 4) then (FDT_END, BADSTRUCTURE)
        else
          var len := (12 + Word(b, start + 4)) % TWO32;
          if !OffsetOk(|b|, start, len) then (FDT_END, BADSTRUCTURE) else (tag, Align4(start + len))
      else if tag == FDT_END_NODE || tag == FDT_NOP || tag == FDT_END then (tag, Align4(start + 4))
      else (FDT_END, BADSTRUCTURE)
  }

  lemma AlignAdd(a: nat, n: nat)
    requires a % 4 == 0
    ensures Align4(a + n) == a + Align4(n)
  {
  }

  /** On an encoded stream, fdt_next_tag steps from token to token. */
  lemma TagAtToken(b: seq<byte>, ts: seq<Token>, k: nat)
    requires Encodes(b, ts) && k < |ts| && |b| < TWO31
    ensures TagFrom(b, Size(ts[..k])) == (TagOf(ts[k]), Size(ts[..k + 1]))
  {
    hide Encodes, TagFrom, TokEnc;
    TokenAt(b, ts, k);
    SizeAligned(ts[..k]);
    TagAtEncoding(b, Size(ts[..k]), ts[k]);
  }

  lemma TagAtEncoding(b: seq<byte>, z: nat, t: Token)
    requires z % 4 == 0 && z + TokLen(t) <= |b| < TWO31
    requires TokEnc(b[z..z + TokLen(t)], t)
    ensures TagFrom(b, z) == (TagOf(t), z + TokLen(t))
  {
    hide Word, NulFrom, Align4;
    WordAtSlice(b, z, TokLen(t), 0);
    assert Word(b, z) == TagOf(t);
    match t {
      case Begin(name) =>
        hide TokEnc;
        TagAtBegin(b, z, name);
      case Prop(nameoff, value) =>
        hide TokEnc, TagFrom;
        TagAtProp(b, z, nameoff, value);
      case _ => AlignAdd(z, 4); AlignFour();
    }
  }

  lemma AlignFour()
    ensures Align4(4) == 4
  {
  }

  lemma WordAtSlice(b: seq<byte>, z: nat, n: nat, i: nat)
    requires z + n <= |b| && i + 4 <= n
    ensures Word(b[z..z + n], i) == Word(b, z + i)
  {
    SliceSlice(b, z, z + n, i, i + 4);
    WordSlice(b, z + i, b[z..z + n], i);
  }

  lemma TagAtProp(b: seq<byte>, z: nat, nameoff: u32, value: seq<byte>)
    requires z % 4 == 0 && z + TokLen(Prop(nameoff, value)) <= |b| < TWO31
    requires TokEnc(b[z..z + TokLen(Prop(nameoff, value))], Prop(nameoff, value))
    ensures TagFrom(b, z) == (FDT_PROP, z + TokLen(Prop(nameoff, value)))
  {
    hide Word, NulFrom;
    var n := TokLen(Prop(nameoff, value));
    WordAtSlice(b, z, n, 0);
    WordAtSlice(b, z, n, 4);
    assert Word(b, z) == FDT_PROP && Word(b, z + 4) == |value|;
    AlignAdd(z + 12, |value|);
    assert (12 + |value|) % TWO32 == 12 + |value|;
  }

  lemma TagAtBegin(b: seq<byte>, z: nat, name: Name)
    requires z % 4 == 0 && z + TokLen(Begin(name)) <= |b|
    requires TokEnc(b[z..z + TokLen(Begin(name))], Begin(name))
    ensures NulFrom(b, z + 4) == |name| && Align4(z + 4 + |name| + 1) == z + TokLen(Begin(name))
    ensures IsStr(b, z + 4, name)
  {
    hide Word;
    var l := TokLen(Begin(name));
    SliceSlice(b, z, z + l, 4, 4 + |name|);
    assert b[z..z + l][4 + |name|] == b[z + 4 + |name|];
    NulIs(b, z + 4, name);
    AlignAdd(z + 4, |name| + 1);
  }

  lemma NulIs(b: seq<byte>, i: nat, name: Name)
    requires IsStr(b, i, name)
    ensures NulFrom(b, i) == |name|
  {
    StrChars(b, i, name);
    assert b[i + |name|] == 0;
  }

  /** The scan for the end of a node's name: the first NUL, or the end of the block. */
  method NameEnd(fdt: array<byte>, base: nat, size: nat, from: nat) returns (offset: nat)
    requires base + size <= fdt.Length < TWO31 && from <= size
    ensures var n := NulFrom(fdt[..][base..base + size], from); offset == if n < 0 then size else from + n
  {
    hide OffsetPtr32;
    ghost var b := fdt[..][base..base + size];
    offset := from;
    OffsetPtrExact(size, offset, 1);
    while OffsetPtr32(size, offset, 1) && fdt[base + offset] != 0
      invariant from <= offset <= size && (OffsetPtr32(size, offset, 1) <==> OffsetOk(size, offset, 1))
      invariant NulFrom(b, from) == if NulFrom(b, offset) < 0 then -1 else offset - from + NulFrom(b, offset)
      decreases size - offset
    {
      offset := offset + 1;
      OffsetPtrExact(size, offset, 1);
    }
  }

  /** fdt_next_tag over the block of `size` bytes at `base`. */
  method NextTagIn(fdt: array<byte>, base: nat, size: nat, start: i32) returns (tag: int, next: int)
    requires base + size <= fdt.Length < TWO31
    ensures (tag, next) == TagFrom(fdt[base..base + size], start)
  {
    hide Word, OffsetPtr32, NulFrom;
    ghost var b := fdt[..][base..base + size];
    assert b == fdt[base..base + size];
    next := TRUNCATED;
    OffsetPtrExact(size, start, 4);
    if !OffsetPtr32(size, start, 4) {
      return FDT_END, next;
    }
    var offset := start;
    tag := LoadWord(fdt, base + offset);
    WordAtSlice(fdt[..], base, size, start);
    offset := offset + 4;
    next := BADSTRUCTURE;
    if tag == FDT_BEGIN_NODE {
      offset := NameEnd(fdt, base, size, offset);
      OffsetPtrExact(size, offset, 1);
      if !OffsetPtr32(size, offset, 1) {
        return FDT_END, next;
      }
      offset := offset + 1;
    } else if tag == FDT_PROP {
      OffsetPtrExact(size, offset, 4);
      if !OffsetPtr32(size, offset, 4) {
        return FDT_END, next;
      }
      var len := LoadWord(fdt, base + offset);
      WordAtSlice(fdt[..], base, size, start + 4);
      // int += unsigned: the length counts modulo 2^32 from the start of the tag
      offset := start + (12 + len) % TWO32;
    } else if tag != FDT_END && tag != FDT_END_NODE && tag != FDT_NOP {
      return FDT_END, next;
    }
    OffsetPtrExact(size, start, offset - start);
    if !OffsetPtr32(size, start, offset - start) {
      return FDT_END, next;
    }
    next := Align4(offset);
  }

  /** fdt32_to_cpu of a word in the buffer. */
  method LoadWord(a: array<byte>, i: nat) returns (v: u32)
    requires i + 4 <= a.Length
    ensures v == Word(a[..], i)
  {
    v := Word(a[i..i + 4], 0);
    WordSlice(a[..], i, a[i..i + 4], 0);
  }

  /** The fdt_totalsize(), fdt_off_dt_struct(), ... accessors. */
  method GetHeader(fdt: array<byte>) returns (h: Header)
    requires HEADER <= fdt.Length
    ensures h == Hdr(fdt[..])
  {
    hide Word;
    var magic := LoadWord(fdt, MAGIC);
    var totalsize := LoadWord(fdt, TOTALSIZE);
    var offStruct := LoadWord(fdt, OFF_STRUCT);
    var offStrings := LoadWord(fdt, OFF_STRINGS);
    var offRsvmap := LoadWord(fdt, OFF_RSVMAP);
    var version := LoadWord(fdt, VERSION);
    var lastComp := LoadWord(fdt, LAST_COMP);
    var bootCpuid := LoadWord(fdt, BOOT_CPUID);
    var sizeStrings := LoadWord(fdt, SIZE_STRINGS);
    var sizeStruct := LoadWord(fdt, SIZE_STRUCT);
    h := Header(magic, totalsize, offStruct, offStrings, offRsvmap,
                version, lastComp, bootCpuid, sizeStrings, sizeStruct);
  }

  /** The fdt_set_...() accessors. */
  method SetHeader(fdt: array<byte>, w: nat, x: u32)
    requires HEADER <= fdt.Length && w % 4 == 0 && w < HEADER
    modifies fdt
    ensures Hdr(fdt[..]) == SetField(old(Hdr(fdt[..])), w, x)
    ensures fdt[HEADER..] == old(fdt[HEADER..])
  {
    hide Hdr;
    ghost var s := fdt[..];
    StoreWord(fdt, w, x);
    StoreField(s, w, x);
    assert fdt[..][HEADER..] == s[HEADER..];
  }
}
