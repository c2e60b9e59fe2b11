/** The memory reserve map edits of fdt_rw.c. */
module FdtReserve {
  import opened Memory
  import opened FdtBytes
  import opened FdtFormat
  import opened FdtBlob
  import opened FdtSplice
  import opened FdtEdit

  lemma RsvBlock(s: seq<byte>, v: View)
    requires Holds(s, v)
    ensures HEADER <= Hdr(s).offRsvmap && Hdr(s).offRsvmap + 16 * |v.rsv| + 16 <= |s|
    ensures RsvEnc(s[Hdr(s).offRsvmap..Hdr(s).offRsvmap + 16 * |v.rsv| + 16], v.rsv)
  {
  }

  lemma Word64AtSlice(b: seq<byte>, z: nat, n: nat, i: nat)
    requires z + n <= |b| && i + 8 <= n
    ensures Word64(b[z..z + n], i) == Word64(b, z + i)
  {
    SliceSlice(b, z, z + n, i, i + 8);
    Word64Slice(b, z + i, b[z..z + n], i);
  }

  /** The map read in place. */
  ghost predicate MapAt(s: seq<byte>, o: nat, rsv: seq<Reserve>) {
    && o + 16 * |rsv| + 16 <= |s|
    && (forall i | 0 <= i < |rsv| :: EntryAt(s, o + 16 * i, rsv[i]) && rsv[i].size != 0)
    && Word64(s, o + 16 * |rsv| + 8) == 0
  }

  lemma MapIsEnc(s: seq<byte>, o: nat, rsv: seq<Reserve>)
    requires o + 16 * |rsv| + 16 <= |s|
    ensures MapAt(s, o, rsv) <==> RsvEnc(s[o..o + 16 * |rsv| + 16], rsv)
  {
    hide Word64;
    var n := 16 * |rsv| + 16;
    var b := s[o..o + n];
    forall i | 0 <= i < |rsv|
      ensures EntryAt(b, 16 * i, rsv[i]) <==> EntryAt(s, o + 16 * i, rsv[i])
    {
      Word64AtSlice(s, o, n, 16 * i);
      Word64AtSlice(s, o, n, 16 * i + 8);
    }
    Word64AtSlice(s, o, n, 16 * |rsv| + 8);
  }

  method LoadWord64(a: array<byte>, i: nat) returns (v: u64)
    requires i + 8 <= a.Length
    ensures v == Word64(a[..], i)
  {
    var h := LoadWord(a, i);
    var l := LoadWord(a, i + 4);
    var hi: int, lo: int := h, l;
    v := hi * 0x1_0000_0000 + lo;
  }

  /** fdt_num_mem_rsv: entries before the first of size zero. */
  method NumMemRsv(fdt: array<byte>, ghost rsv: seq<Reserve>) returns (n: nat)
    requires HEADER <= fdt.Length && MapAt(fdt[..], Hdr(fdt[..]).offRsvmap, rsv)
    ensures n == |rsv|
  {
    hide Word64, Hdr;
    var h := GetHeader(fdt);
    n := 0;
    while true
      invariant n <= |rsv|
      decreases |rsv| - n
    {
      assert n < |rsv| ==> EntryAt(fdt[..], h.offRsvmap + 16 * n, rsv[n]);
      var size := LoadWord64(fdt, h.offRsvmap + 16 * n + 8);
      if size == 0 {
        return;
      }
      n := n + 1;
    }
  }

  /** fdt_add_mem_rsv: the entry goes at the end. An entry of size zero reads as a
      terminator, so it leaves the decoded map as it was. */
  method AddMemRsv(fdt: array<byte>, address: u64, size: u64, ghost v: View) returns (err: int, ghost v': View)
    requires Holds(fdt[..], v)
    modifies fdt
    ensures Holds(fdt[..], v')
    ensures err == if old(DataSize(fdt[..])) + 16 > old(Hdr(fdt[..])).totalsize then NOSPACE else 0
    ensures err != 0 ==> v' == v
    ensures err == 0 ==> v' == v.(rsv := if size == 0 then v.rsv else v.rsv + [Reserve(address, size)])
    ensures HEADER <= fdt.Length && Hdr(fdt[..]).version == 17
    ensures Grows(old(Hdr(fdt[..])), Hdr(fdt[..]), if err == 0 then 16 else 0, 0, 0)
  {
    hide Holds, Hdr, RsvEnc, MapAt, Spliced, PutBytes, EncWord64;
    v' := v;
    RwCheckHeader(fdt, v);
    ghost var s := fdt[..];
    Layout(s, v);
    RsvBlock(s, v);
    var h := GetHeader(fdt);
    MapIsEnc(s, h.offRsvmap, v.rsv);
    var n := NumMemRsv(fdt, v.rsv);
    var p := h.offRsvmap + 16 * n;
    err := SpliceMemRsv(fdt, p, 0, 1, v);
    if err != 0 {
      return err, v;
    }
    ghost var s1 := fdt[..];
    WriteEntry(fdt, p, address, size, s, DataSize(s));
    ghost var rsv := if size == 0 then v.rsv else v.rsv + [Reserve(address, size)];
    AddedMap(s, s1, v.rsv, h.offRsvmap, address, size, DataSize(s));
    MapIsEnc(fdt[..], h.offRsvmap, rsv);
    RsvSpliceHolds(s, fdt[..], v, p, 0, 16, rsv);
    v' := v.(rsv := rsv);
  }

  method WriteEntry(fdt: array<byte>, p: nat, address: u64, size: u64, ghost s: seq<byte>, ghost end: int)
    requires Spliced(s, fdt[..], p, 0, 16, end)
    modifies fdt
    ensures Spliced(s, fdt[..], p, 0, 16, end) && Hdr(fdt[..]) == old(Hdr(fdt[..])) && p + 16 <= fdt.Length
    ensures fdt[..] == PutBytes(PutBytes(old(fdt[..]), p, EncWord64(address)), p + 8, EncWord64(size))
  {
    hide Hdr, Spliced, PutBytes, EncWord64;
    ghost var s1 := fdt[..];
    SplicedBounds(s, s1, p, 0, 16, end);
    Memcpy(fdt, p, EncWord64(address));
    ghost var s2 := fdt[..];
    Memcpy(fdt, p + 8, EncWord64(size));
    SplicedWrite(s, s1, p, 0, 16, end, p, EncWord64(address));
    SplicedWrite(s, s2, p, 0, 16, end, p + 8, EncWord64(size));
  }

  lemma AddedMap(s: seq<byte>, s1: seq<byte>, rsv: seq<Reserve>, o: nat, address: u64, size: u64, end: nat)
    requires HEADER <= o && MapAt(s, o, rsv) && Spliced(s, s1, o + 16 * |rsv|, 0, 16, end)
    requires o + 16 * |rsv| + 16 <= end
    ensures o + 16 * |rsv| + 32 <= |s1|
    ensures var p := o + 16 * |rsv|;
      MapAt(PutBytes(PutBytes(s1, p, EncWord64(address)), p + 8, EncWord64(size)), o,
            if size == 0 then rsv else rsv + [Reserve(address, size)])
  {
    hide Word64, PutBytes, EncWord64;
    var p := o + 16 * |rsv|;
    var s2 := PutBytes(s1, p, EncWord64(address));
    var s3 := PutBytes(s2, p + 8, EncWord64(size));
    PutKeeps(s2, p + 8, EncWord64(size), p, p + 8);
    PutBytesEffect(s1, p, EncWord64(address));
    PutBytesEffect(s2, p + 8, EncWord64(size));
    assert EncWord64(address)[0..8] == EncWord64(address) && EncWord64(size)[0..8] == EncWord64(size);
    Word64Slice(s3, p, EncWord64(address), 0);
    Word64Slice(s3, p + 8, EncWord64(size), 0);
    Word64OfEnc(address);
    Word64OfEnc(size);
    assert EntryAt(s3, p, Reserve(address, size));
    forall i | 0 <= i < |rsv|
      ensures EntryAt(s3, o + 16 * i, rsv[i])
    {
      assert EntryAt(s, o + 16 * i, rsv[i]);
      EntryKept(s, s1, o, p, i, rsv[i]);
      PutKeeps(s1, p, EncWord64(address), o, p);
      PutKeeps(s2, p + 8, EncWord64(size), o, p);
      EntryKept(s1, s3, o, p, i, rsv[i]);
    }
    if size != 0 {
      Shifted(s, s1, p, end, 16, p + 8, p + 16);
      PutKeeps(s1, p, EncWord64(address), p + 24, p + 32);
      PutKeeps(s2, p + 8, EncWord64(size), p + 24, p + 32);
      Word64Slice(s3, p + 24, s, p + 8);
    }
  }

  lemma EntryKept(s: seq<byte>, s': seq<byte>, o: nat, p: nat, i: nat, r: Reserve)
    requires EntryAt(s, o + 16 * i, r) && o + 16 * i + 16 <= p <= |s'|
    requires HEADER <= o && p <= |s| && (s'[HEADER..p] == s[HEADER..p] || s'[o..p] == s[o..p])
    ensures EntryAt(s', o + 16 * i, r)
  {
    hide Word64;
    var x := o + 16 * i;
    var a := if s'[o..p] == s[o..p] then o else HEADER;
    Shifted(s, s', a, p, 0, x, x + 8);
    Shifted(s, s', a, p, 0, x + 8, x + 16);
    Word64Slice(s', x, s, x);
    Word64Slice(s', x + 8, s, x + 8);
  }

  /** The view without entry `n`. */
  function Without(v: View, n: nat): View
    requires n < |v.rsv|
  {
    v.(rsv := v.rsv[..n] + v.rsv[n + 1..])
  }

  /** Entry `n`, relative to a blob at address `at`: the source's pointer has 32 bits. */
  function EntryPos(at: nat, h: Header, n: i32): int {
    (at + h.offRsvmap + 16 * n) % TWO32 - at
  }

  /** The splice refuses a range that wraps or ends behind the data. */
  predicate Refused(at: nat, h: Header, n: i32) {
    var p := EntryPos(at, h, n);
    at + p + 16 >= TWO32 || p + 16 > h.offStrings + h.sizeStrings
  }

  /** Everything behind the 16 bytes at `p` is pulled down over them, and the block
      offsets found in the header after that go down by 16. Bytes in front of the
      buffer are not shown. */
  ghost function Pulled(s: seq<byte>, p: int): (r: seq<byte>)
    requires HEADER <= |s| && p + 16 <= DataSize(s) <= |s|
    ensures |r| == |s|
  {
    var q := if p < 0 then 0 else p;
    var m := if q + 16 <= DataSize(s) then MoveBytes(s, q, q + 16, DataSize(s) - q - 16) else s;
    var m1 := PutWord(m, OFF_STRUCT, (Word(m, OFF_STRUCT) - 16) % TWO32);
    PutWord(m1, OFF_STRINGS, (Word(m1, OFF_STRINGS) - 16) % TWO32)
  }

  ghost predicate PulledDown(s: seq<byte>, s': seq<byte>, at: nat, n: i32) {
    && HEADER <= |s| && EntryPos(at, Hdr(s), n) + 16 <= DataSize(s) <= |s|
    && s' == Pulled(s, EntryPos(at, Hdr(s), n))
  }

  /** fdt_del_mem_rsv, for a blob at address `at`. The source tests the entry number
      only from above: a negative one succeeds unless the splice refuses it. `c` is the
      blob after the header check. */
  method DelMemRsv(fdt: array<byte>, at: nat, n: i32, ghost v: View)
    returns (err: int, ghost v': View, ghost c: seq<byte>)
    requires Holds(fdt[..], v) && at + fdt.Length < TWO32
    modifies fdt
    ensures err == if n >= |v.rsv| then NOTFOUND
                   else if n < 0 && Refused(at, old(Hdr(fdt[..])), n) then BADOFFSET
                   else 0
    ensures err != 0 ==> Holds(fdt[..], v) && v' == v
    ensures err == 0 && n >= 0 ==> Holds(fdt[..], v') && v' == Without(v, n)
    ensures err != 0 || n >= 0 ==>
      && HEADER <= fdt.Length && Hdr(fdt[..]).version == 17
      && Grows(old(Hdr(fdt[..])), Hdr(fdt[..]), if err == 0 then -16 else 0, 0, 0)
    ensures Holds(c, v) && Hdr(c) == old(Hdr(fdt[..])).(version := 17)
    ensures err == 0 && n < 0 ==> PulledDown(c, fdt[..], at, n)
    ensures (if err == 0 then 0 <= n < |v.rsv| && Holds(fdt[..], Without(v, n)) else Holds(fdt[..], v)) <==>
            n >= 0 || Refused(at, old(Hdr(fdt[..])), n)
  {
    hide Holds, Hdr, RsvEnc, MapAt, PulledDown;
    v' := v;
    RwCheckHeader(fdt, v);
    c := fdt[..];
    Layout(c, v);
    RsvBlock(c, v);
    var h := GetHeader(fdt);
    MapIsEnc(c, h.offRsvmap, v.rsv);
    var m := NumMemRsv(fdt, v.rsv);
    if n >= m {
      return NOTFOUND, v, c;
    }
    if n < 0 {
      err := DelBelow(fdt, at, n, v);
      return err, v, c;
    }
    DelAt(fdt, n, v);
    err := 0;
    v' := Without(v, n);
  }

  /** The splice of an entry of the map. */
  method DelAt(fdt: array<byte>, n: nat, ghost v: View)
    requires Holds(fdt[..], v) && n < |v.rsv|
    modifies fdt
    ensures Holds(fdt[..], Without(v, n))
    ensures HEADER <= fdt.Length && Hdr(fdt[..]).version == old(Hdr(fdt[..])).version
    ensures Grows(old(Hdr(fdt[..])), Hdr(fdt[..]), -16, 0, 0)
  {
    hide Holds, Hdr, RsvEnc, MapAt, Spliced;
    ghost var s := fdt[..];
    Layout(s, v);
    RsvBlock(s, v);
    var h := GetHeader(fdt);
    MapIsEnc(s, h.offRsvmap, v.rsv);
    var p := h.offRsvmap + 16 * n;
    var err := SpliceMemRsv(fdt, p, 1, 0, v);
    ghost var rsv := v.rsv[..n] + v.rsv[n + 1..];
    RemovedMap(s, fdt[..], v.rsv, h.offRsvmap, n, DataSize(s));
    MapIsEnc(fdt[..], h.offRsvmap, rsv);
    RsvSpliceHolds(s, fdt[..], v, p, 16, 0, rsv);
  }

  /** The same splice for a negative entry number. */
  method DelBelow(fdt: array<byte>, at: nat, n: i32, ghost v: View) returns (err: int)
    requires Holds(fdt[..], v) && at + fdt.Length < TWO32 && n < 0
    modifies fdt
    ensures err == if Refused(at, old(Hdr(fdt[..])), n) then BADOFFSET else 0
    ensures err != 0 ==> fdt[..] == old(fdt[..])
    ensures err == 0 ==> PulledDown(old(fdt[..]), fdt[..], at, n)
  {
    hide Holds, MoveBytes, PutWord, Word;
    Layout(fdt[..], v);
    var h := GetHeader(fdt);
    var p := EntryPos(at, h, n);
    var end := h.offStrings + h.sizeStrings;
    if at + p + 16 >= TWO32 || p + 16 > end {
      return BADOFFSET;
    }
    var q := if p < 0 then 0 else p;
    if q + 16 <= end {
      Memmove(fdt, q, q + 16, end - q - 16);
    }
    var offStruct := LoadWord(fdt, OFF_STRUCT);
    StoreWord(fdt, OFF_STRUCT, (offStruct - 16) % TWO32);
    var offStrings := LoadWord(fdt, OFF_STRINGS);
    StoreWord(fdt, OFF_STRINGS, (offStrings - 16) % TWO32);
    err := 0;
  }

  /** With a map directly behind the header, deleting entry -1 puts the first entry
      over the last four header words: the structure size becomes the low word of its
      size. */
  lemma HeaderLost(s: seq<byte>, v: View)
    requires Holds(s, v) && Hdr(s).offRsvmap == HEADER
    ensures var s' := Pulled(s, HEADER - 16);
      && Hdr(s').sizeStruct == Word(s, HEADER + 12)
      && (Word(s, HEADER + 12) != Size(v.Toks()) ==> forall w: View | w.body == v.body :: !Holds(s', w))
  {
    hide Encodes, RsvEnc, Size, Word, PutWord;
    Layout(s, v);
    var e := DataSize(s);
    var m := MoveBytes(s, HEADER - 16, HEADER, e - HEADER);
    forall i | SIZE_STRUCT <= i < SIZE_STRUCT + 4
      ensures m[i] == s[i + 16]
    {
      MovedByte(s, HEADER - 16, HEADER, e - HEADER, i);
    }
    hide MoveBytes;
    assert m[SIZE_STRUCT..SIZE_STRUCT + 4] == s[SIZE_STRUCT + 16..SIZE_STRUCT + 20];
    WordSlice(m, SIZE_STRUCT, s, SIZE_STRUCT + 16);
    var m1 := PutWord(m, OFF_STRUCT, (Word(m, OFF_STRUCT) - 16) % TWO32);
    PutWordEffect(m, OFF_STRUCT, (Word(m, OFF_STRUCT) - 16) % TWO32);
    PutWordEffect(m1, OFF_STRINGS, (Word(m1, OFF_STRINGS) - 16) % TWO32);
  }

  /** With room in front of the map, a negative entry number deletes the first
      entry. */
  lemma FirstLost(s: seq<byte>, v: View, p: nat)
    requires Holds(s, v) && v.rsv != [] && HEADER <= p && p + 16 <= Hdr(s).offRsvmap
    ensures p + 16 <= DataSize(s) <= |s| && Holds(Pulled(s, p), Without(v, 0))
  {
    hide Holds, Hdr, MapAt, RsvEnc, Pulled, MoveBytes;
    Layout(s, v);
    var o, e := Hdr(s).offRsvmap, DataSize(s);
    var s0 := MoveBytes(s, p, p + 16, o - p);
    GapMoved(s, p, o);
    GapHolds(s, s0, v);
    RsvBlock(s0, v);
    MapIsEnc(s0, o, v.rsv);
    PulledIs(s, p, o);
    RemovedMap(s0, Pulled(s, p), v.rsv, o, 0, e);
    MapIsEnc(Pulled(s, p), o, v.rsv[..0] + v.rsv[1..]);
    RsvSpliceHolds(s0, Pulled(s, p), v, o, 16, 0, v.rsv[..0] + v.rsv[1..]);
  }

  lemma GapMoved(s: seq<byte>, p: nat, o: nat)
    requires HEADER <= p && p + 16 <= o && o + 16 <= |s|
    ensures var s0 := MoveBytes(s, p, p + 16, o - p); Hdr(s0) == Hdr(s) && s0[o..] == s[o..]
  {
    SameHeader(s, MoveBytes(s, p, p + 16, o - p));
  }

  /** Bytes in front of the map do not matter. */
  lemma GapHolds(s: seq<byte>, s0: seq<byte>, v: View)
    requires Holds(s, v) && |s0| == |s| && Hdr(s0) == Hdr(s) && s0[Hdr(s).offRsvmap..] == s[Hdr(s).offRsvmap..]
    ensures Holds(s0, v)
  {
    hide Encodes, RsvEnc, WfView, Size, Hdr;
    var h := Hdr(s);
    assert s0[h.offRsvmap..|s|] == s0[h.offRsvmap..] && s[h.offRsvmap..|s|] == s[h.offRsvmap..];
    Shifted(s, s0, h.offRsvmap, |s|, 0, h.offRsvmap, h.offRsvmap + 16 * |v.rsv| + 16);
    Shifted(s, s0, h.offRsvmap, |s|, 0, h.offStruct, h.offStruct + Size(v.Toks()));
    Shifted(s, s0, h.offRsvmap, |s|, 0, h.offStrings, h.offStrings + |v.strs|);
  }

  lemma PulledIs(s: seq<byte>, p: nat, o: nat)
    requires HEADER <= p && p + 16 <= o <= |s| && o + 16 <= DataSize(s) <= |s|
    requires 16 <= Hdr(s).offStruct && 16 <= Hdr(s).offStrings
    ensures Spliced(MoveBytes(s, p, p + 16, o - p), Pulled(s, p), o, 16, 0, DataSize(s))
    ensures Hdr(Pulled(s, p)) == Hdr(s).(offStruct := Hdr(s).offStruct - 16, offStrings := Hdr(s).offStrings - 16)
  {
    hide Word, PutWord, Hdr;
    var e := DataSize(s);
    var s0, m := MoveBytes(s, p, p + 16, o - p), MoveBytes(s, p, p + 16, e - p - 16);
    MovedHeader(s, p, e);
    WordsOf(m);
    var m1 := PutWord(m, OFF_STRUCT, Hdr(m).offStruct - 16);
    StoreField(m, OFF_STRUCT, Hdr(m).offStruct - 16);
    WordsOf(m1);
    StoreField(m1, OFF_STRINGS, Hdr(m1).offStrings - 16);
    var r := Pulled(s, p);
    assert r == PutWord(m1, OFF_STRINGS, Hdr(m1).offStrings - 16);
    hide MoveBytes;
    forall i | HEADER <= i < |s|
      ensures r[i] == m[i]
    {
      assert m1[i] == m[i];
    }
    MovedBytes(s, p, o, e);
  }

  lemma MovedBytes(s: seq<byte>, p: nat, o: nat, e: nat)
    requires HEADER <= p && p + 16 <= o && o + 16 <= e <= |s|
    ensures var s0, m := MoveBytes(s, p, p + 16, o - p), MoveBytes(s, p, p + 16, e - p - 16);
      m[HEADER..o] == s0[HEADER..o] && m[o..e - 16] == s0[o + 16..e]
  {
    var b0, b1 := s[p + 16..o + 16], s[p + 16..e];
    var s0, m := PutBytes(s, p, b0), PutBytes(s, p, b1);
    assert s0[p..o] == b0 && m[p..e - 16] == b1;
    PutKeeps(s, p, b0, HEADER, p);
    PutKeeps(s, p, b1, HEADER, p);
    PutKeeps(s, p, b0, o + 16, e);
    Shifted(s, m, p + 16, e, -16, p + 16, o + 16);
    Shifted(s, m, p + 16, e, -16, o + 16, e);
    hide PutBytes;
    assert m[HEADER..o] == m[HEADER..p] + m[p..o] && s0[HEADER..o] == s0[HEADER..p] + s0[p..o];
  }

  lemma MovedByte(s: seq<byte>, dst: nat, src: nat, len: nat, i: nat)
    requires dst + len <= |s| && src + len <= |s| && i < |s|
    ensures MoveBytes(s, dst, src, len)[i] == if dst <= i < dst + len then s[src + i - dst] else s[i]
  {
  }

  lemma WordsOf(s: seq<byte>)
    requires HEADER <= |s|
    ensures Word(s, OFF_STRUCT) == Hdr(s).offStruct && Word(s, OFF_STRINGS) == Hdr(s).offStrings
  {
  }

  lemma MovedHeader(s: seq<byte>, p: nat, e: nat)
    requires HEADER <= p && p + 16 <= e <= |s|
    ensures Hdr(MoveBytes(s, p, p + 16, e - p - 16)) == Hdr(s)
  {
    SameHeader(s, MoveBytes(s, p, p + 16, e - p - 16));
  }

  lemma RemovedMap(s: seq<byte>, s1: seq<byte>, rsv: seq<Reserve>, o: nat, n: nat, end: nat)
    requires HEADER <= o && n < |rsv| && MapAt(s, o, rsv) && Spliced(s, s1, o + 16 * n, 16, 0, end)
    requires o + 16 * |rsv| + 16 <= end
    ensures MapAt(s1, o, rsv[..n] + rsv[n + 1..])
  {
    hide Word64;
    var p, r := o + 16 * n, rsv[..n] + rsv[n + 1..];
    forall i | 0 <= i < |r|
      ensures EntryAt(s1, o + 16 * i, r[i]) && r[i].size != 0
    {
      if i < n {
        assert EntryAt(s, o + 16 * i, rsv[i]);
        EntryKept(s, s1, o, p, i, rsv[i]);
      } else {
        var x := o + 16 * (i + 1);
        assert EntryAt(s, o + 16 * (i + 1), rsv[i + 1]);
        assert s1[p + 16 - 16..end - 16] == s[p + 16..end];
        Shifted(s, s1, p + 16, end, -16, x, x + 8);
        Shifted(s, s1, p + 16, end, -16, x + 8, x + 16);
        Word64Slice(s1, x - 16, s, x);
        Word64Slice(s1, x - 8, s, x + 8);
      }
    }
    var y := o + 16 * |rsv| + 8;
    assert s1[p + 16 - 16..end - 16] == s[p + 16..end];
    Shifted(s, s1, p + 16, end, -16, y, y + 8);
    Word64Slice(s1, y - 16, s, y);
  }
}
