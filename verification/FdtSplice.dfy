/** The splices of fdt_rw.c: opening or closing a gap inside a complete blob by
    an overlapping memmove, with the header words kept in step. */
module FdtSplice {
  import opened Memory
  import opened FdtBytes
  import opened FdtFormat
  import opened FdtBlob
  import opened FdtWalk

  /** `s'` is `s` with the `oldlen` bytes at `at` replaced by `newlen` unspecified
      bytes, up to `end`; the header is not covered. */
  ghost predicate Spliced(s: seq<byte>, s': seq<byte>, at: int, oldlen: int, newlen: int, end: int) {
    && |s'| == |s|
    && HEADER <= at && 0 <= oldlen && 0 <= newlen
    && at + oldlen <= end <= |s| && end - oldlen + newlen <= |s|
    && s'[HEADER..at] == s[HEADER..at]
    && s'[at + newlen..end - oldlen + newlen] == s[at + oldlen..end]
  }

  /** Equal stretches contain equal sub-stretches. */
  lemma Shifted(s: seq<byte>, s': seq<byte>, a: nat, b: nat, d: int, x: nat, y: nat)
    requires a <= x <= y <= b <= |s| && 0 <= a + d && b + d <= |s'|
    requires s'[a + d..b + d] == s[a..b]
    ensures s'[x + d..y + d] == s[x..y]
  {
    SliceSlice(s, a, b, x - a, y - a);
    SliceSlice(s', a + d, b + d, x - a, y - a);
  }

  /** The gap may be widened downwards over bytes that did not move. */
  lemma SplicedWiden(s: seq<byte>, s': seq<byte>, at: int, oldlen: int, newlen: int, end: int, c: nat)
    requires Spliced(s, s', at, oldlen, newlen, end) && HEADER <= at - c
    ensures Spliced(s, s', at - c, oldlen + c, newlen + c, end)
  {
    Shifted(s, s', HEADER, at, 0, HEADER, at - c);
  }

  /** A write below a stretch, or above it, leaves it alone. */
  lemma PutKeeps(s: seq<byte>, i: nat, b: seq<byte>, x: nat, y: nat)
    requires i + |b| <= |s| && x <= y <= |s| && (i + |b| <= x || y <= i)
    ensures PutBytes(s, i, b)[x..y] == s[x..y]
  {
  }

  /** Writing inside the gap keeps the rest. */
  lemma SplicedWrite(s: seq<byte>, s': seq<byte>, at: int, oldlen: int, newlen: int, end: int, x: int, b: seq<byte>)
    requires Spliced(s, s', at, oldlen, newlen, end)
    requires at <= x && x + |b| <= at + newlen
    ensures Spliced(s, PutBytes(s', x, b), at, oldlen, newlen, end)
    ensures Hdr(PutBytes(s', x, b)) == Hdr(s')
  {
    PutKeeps(s', x, b, HEADER, at);
    PutKeeps(s', x, b, at + newlen, end - oldlen + newlen);
    SameHeader(s', PutBytes(s', x, b));
  }

  /** A header store does not disturb a splice. */
  lemma SplicedHeaderStore(s: seq<byte>, s': seq<byte>, s'': seq<byte>, at: int, oldlen: int, newlen: int, end: int)
    requires Spliced(s, s', at, oldlen, newlen, end)
    requires HEADER <= |s''| && s''[HEADER..] == s'[HEADER..]
    ensures Spliced(s, s'', at, oldlen, newlen, end)
  {
    assert s''[HEADER..|s''|] == s''[HEADER..] && s'[HEADER..|s'|] == s'[HEADER..];
    assert |s'| == |s''|;
    Shifted(s', s'', HEADER, |s'|, 0, HEADER, at);
    Shifted(s', s'', HEADER, |s'|, 0, at + newlen, end - oldlen + newlen);
  }

  // ----- Splicing the structure block

  ghost predicate StructSpliced(s: seq<byte>, s': seq<byte>, at: int, oldlen: int, newlen: int) {
    && HEADER <= |s|
    && Spliced(s, s', at, oldlen, newlen, DataSize(s))
    && DataSize(s) - oldlen + newlen <= Hdr(s).totalsize
    && 0 <= Hdr(s).sizeStruct + newlen - oldlen < TWO32 && 0 <= Hdr(s).offStrings + newlen - oldlen < TWO32
    && Hdr(s') == Hdr(s).(sizeStruct := Hdr(s).sizeStruct + newlen - oldlen,
                          offStrings := Hdr(s).offStrings + newlen - oldlen)
  }

  /** The header after an edit: the sizes of the map, the structure and the strings grow by
      that much, what follows moves along, and all else stays, the total size included. */
  predicate Grows(h: Header, h': Header, rsv: int, struct: int, strings: int) {
    && h'.magic == h.magic && h'.totalsize == h.totalsize && h'.offRsvmap == h.offRsvmap
    && h'.lastComp == h.lastComp && h'.bootCpuid == h.bootCpuid
    && h'.offStruct == h.offStruct + rsv && h'.sizeStruct == h.sizeStruct + struct
    && h'.offStrings == h.offStrings + rsv + struct && h'.sizeStrings == h.sizeStrings + strings
  }

  /** So the bytes in use grow by exactly the sum. */
  lemma GrowsBy(s: seq<byte>, s': seq<byte>, rsv: int, struct: int, strings: int)
    requires HEADER <= |s| && HEADER <= |s'| && Grows(Hdr(s), Hdr(s'), rsv, struct, strings)
    ensures DataSize(s') == DataSize(s) + rsv + struct + strings
  {
    hide Hdr;
  }

  /** The header check comes first and may lower the version. */
  lemma GrowsAll(h: Header, h': Header)
    requires h' == h.(version := 17)
    ensures Grows(h, h', 0, 0, 0)
    ensures forall k: Header, rsv: int, struct: int, strings: int | Grows(h', k, rsv, struct, strings) ::
      Grows(h, k, rsv, struct, strings)
  {
  }

  lemma SplicedGrows(s: seq<byte>, s': seq<byte>, at: int, oldlen: int, newlen: int)
    requires StructSpliced(s, s', at, oldlen, newlen)
    ensures HEADER <= |s| == |s'| && Grows(Hdr(s), Hdr(s'), 0, newlen - oldlen, 0) && Hdr(s').version == Hdr(s).version
  {
    hide Hdr;
  }

  function ReplaceToks(v: View, i: nat, j: nat, us: seq<Token>): View
    requires i <= j <= |v.body|
  {
    v.(body := v.body[..i] + us + v.body[j..])
  }

  /** Absolute position of token `k`. */
  ghost function Pos(s: seq<byte>, v: View, k: nat): nat
    requires HEADER <= |s| && k <= |v.Toks()|
  {
    Hdr(s).offStruct + OffsetOf(v, k)
  }

  /** Replacing the bytes of tokens `i` to `j` by an encoding of `us` gives a
      complete blob with just those tokens replaced. */
  lemma StructSpliceHolds(s: seq<byte>, s': seq<byte>, v: View, i: nat, j: nat, newlen: nat, us: seq<Token>)
    requires Holds(s, v) && i <= j <= |v.body|
    requires StructSpliced(s, s', Pos(s, v, i), Pos(s, v, j) - Pos(s, v, i), newlen)
    requires Encodes(s'[Pos(s, v, i)..Pos(s, v, i) + newlen], us)
    requires Resolvable(us, v.strs) && End !in us
    ensures Holds(s', ReplaceToks(v, i, j, us))
  {
    hide Hdr, Encodes, Size, Events, RsvEnc, WfView, Resolvable;
    var h, d := Hdr(s), newlen - (Pos(s, v, j) - Pos(s, v, i));
    StructEncodes(s, s', v, i, j, newlen, us);
    Shifted(s, s', HEADER, Pos(s, v, i), 0, h.offRsvmap, h.offRsvmap + 16 * |v.rsv| + 16);
    Shifted(s, s', Pos(s, v, j), DataSize(s), d, h.offStrings, DataSize(s));
    SpliceResolvable(v, i, j, us);
  }

  lemma StructEncodes(s: seq<byte>, s': seq<byte>, v: View, i: nat, j: nat, newlen: nat, us: seq<Token>)
    requires Holds(s, v) && i <= j <= |v.body|
    requires Spliced(s, s', Pos(s, v, i), Pos(s, v, j) - Pos(s, v, i), newlen, DataSize(s))
    requires Encodes(s'[Pos(s, v, i)..Pos(s, v, i) + newlen], us)
    ensures OffsetOf(v, i) <= OffsetOf(v, j) <= Size(v.Toks())
    ensures var ts := ReplaceToks(v, i, j, us).Toks();
      && Size(ts) == Size(v.Toks()) + newlen - (OffsetOf(v, j) - OffsetOf(v, i))
      && Hdr(s).offStruct + Size(ts) <= |s'| && Encodes(Block(s', Hdr(s).offStruct, Size(ts)), ts)
  {
    hide Holds, Hdr, Encodes, Size, Spliced;
    StructFacts(s, v);
    Layout(s, v);
    var v' := ReplaceToks(v, i, j, us);
    var o := Hdr(s).offStruct;
    var zi, zj := OffsetOf(v, i), OffsetOf(v, j);
    SizeMonotone(v.Toks(), i, j);
    SplicedBounds(s, s', o + zi, zj - zi, newlen, DataSize(s));
    var b, g := StructOf(s), s'[o + zi..o + zi + newlen];
    EncodesSplice(b, v.Toks(), i, j, g, us);
    assert v.Toks()[..i] + us + v.Toks()[j..] == v'.Toks();
    StructBytes(s, s', o, |b|, zi, zj, newlen, DataSize(s));
    EncodesSize(b[..zi] + g + b[zj..], v'.Toks());
  }

  lemma SplicedBounds(s: seq<byte>, s': seq<byte>, at: int, oldlen: int, newlen: int, end: int)
    requires Spliced(s, s', at, oldlen, newlen, end)
    ensures 0 <= newlen && HEADER <= at <= at + newlen <= |s'| == |s|
  {
  }

  lemma StructBytes(s: seq<byte>, s': seq<byte>, o: int, n: int, zi: int, zj: int, newlen: int, end: int)
    requires 0 <= zi <= zj <= n && HEADER <= o && o + n <= end
    requires Spliced(s, s', o + zi, zj - zi, newlen, end)
    ensures o + n + newlen - (zj - zi) <= |s'|
    ensures s'[o..o + n + newlen - (zj - zi)]
      == s[o..o + n][..zi] + s'[o + zi..o + zi + newlen] + s[o..o + n][zj..]
  {
    var d := newlen - (zj - zi);
    Shifted(s, s', HEADER, o + zi, 0, o, o + zi);
    Shifted(s, s', o + zj, end, d, o + zj, o + n);
    SliceSlice(s, o, o + n, 0, zi);
    SliceSlice(s, o, o + n, zj, n);
    assert s[o..o + n][..zi] == s[o..o + n][0..zi];
    assert s[o..o + n][zj..] == s[o..o + n][zj..n];
    ThreeParts(s', o, o + zi, o + zi + newlen, o + n + d);
  }

  lemma ThreeParts(s: seq<byte>, a: int, b: int, c: int, d: int)
    requires 0 <= a <= b <= c <= d <= |s|
    ensures s[a..d] == s[a..b] + s[b..c] + s[c..d]
  {
  }

  lemma SpliceResolvable(v: View, i: nat, j: nat, us: seq<Token>)
    requires i <= j <= |v.body| && WfView(v)
    requires Resolvable(us, v.strs) && End !in us
    ensures WfView(ReplaceToks(v, i, j, us))
  {
    hide Terminated;
    var body := v.body[..i] + us + v.body[j..];
    forall x | 0 <= x < |body|
      ensures body[x] != End && (body[x].Prop? ==> Terminated(v.strs, body[x].nameoff))
    {
      if x < i {
        assert body[x] == v.body[x];
      } else if x < i + |us| {
        assert body[x] == us[x - i];
      } else {
        assert body[x] == v.body[x - i - |us| + j];
      }
    }
  }

  /** The event stream of the replaced tokens. */
  lemma SpliceEvents(v: View, i: nat, j: nat, us: seq<Token>)
    requires i <= j <= |v.body|
    ensures EvIdx(v, i) <= EvIdx(v, j) <= |v.Ev()|
    ensures ReplaceToks(v, i, j, us).Ev() == v.Ev()[..EvIdx(v, i)] + Events(us, v.strs) + v.Ev()[EvIdx(v, j)..]
  {
    hide Events;
    EvIdxMonotone(v, i, j);
    EventsConcat(v.body[..i] + us, v.body[j..], v.strs);
    EventsConcat(v.body[..i], us, v.strs);
    assert v.body == v.body[..i] + v.body[i..] && v.body == v.body[..j] + v.body[j..];
    EventsConcat(v.body[..i], v.body[i..], v.strs);
    EventsConcat(v.body[..j], v.body[j..], v.strs);
  }

  // ----- Methods

  /** Storing a header word that places no block keeps the contents. */
  lemma HeaderStore(s: seq<byte>, s': seq<byte>, v: View, w: nat, x: u32)
    requires Holds(s, v)
    requires (w == VERSION && x >= 17) || (w == TOTALSIZE && DataSize(s) <= x <= |s|)
    requires HEADER <= |s'| && Hdr(s') == SetField(Hdr(s), w, x) && s'[HEADER..] == s[HEADER..]
    ensures Holds(s', v)
  {
    hide Encodes, RsvEnc, WfView, Size, Hdr;
    var h := Hdr(s);
    assert s'[HEADER..|s'|] == s'[HEADER..] && s[HEADER..|s|] == s[HEADER..];
    Shifted(s, s', HEADER, |s|, 0, h.offRsvmap, h.offRsvmap + 16 * |v.rsv| + 16);
    Shifted(s, s', HEADER, |s|, 0, h.offStruct, h.offStruct + Size(v.Toks()));
    Shifted(s, s', HEADER, |s|, 0, h.offStrings, h.offStrings + |v.strs|);
  }

  /** _fdt_rw_check_header on a complete blob: always accepted; a later version
      number is lowered to 17. */
  method RwCheckHeader(fdt: array<byte>, ghost v: View)
    requires Holds(fdt[..], v)
    modifies fdt
    ensures Holds(fdt[..], v)
    ensures Hdr(fdt[..]) == old(Hdr(fdt[..])).(version := 17)
    ensures fdt[HEADER..] == old(fdt[HEADER..])
  {
    hide Holds, Hdr;
    ghost var s := fdt[..];
    Layout(s, v);
    var h := GetHeader(fdt);
    if h.version > 17 {
      SetHeader(fdt, VERSION, 17);
      assert fdt[..][HEADER..] == fdt[HEADER..] == s[HEADER..];
      HeaderStore(s, fdt[..], v, VERSION, 17);
    }
  }

  lemma Layout(s: seq<byte>, v: View)
    requires Holds(s, v)
    ensures HEADER <= |s| < TWO31 && WfView(v)
    ensures HEADER <= Hdr(s).offRsvmap && Hdr(s).offRsvmap + 16 * |v.rsv| + 16 <= Hdr(s).offStruct
    ensures Hdr(s).sizeStruct == Size(v.Toks()) && Hdr(s).sizeStrings == |v.strs|
    ensures Hdr(s).offStruct + Hdr(s).sizeStruct <= Hdr(s).offStrings <= DataSize(s) <= Hdr(s).totalsize <= |s|
    ensures Hdr(s).magic == FDT_MAGIC && Hdr(s).version >= 17 && Hdr(s).lastComp <= 17
  {
  }

  /** _fdt_splice: opens or closes a gap at `p` by moving everything up to the end
      of the used data. */
  method Splice(fdt: array<byte>, p: nat, oldlen: nat, newlen: nat, ghost v: View) returns (err: int)
    requires Holds(fdt[..], v) && HEADER <= p
    modifies fdt
    ensures err == if p + oldlen > old(DataSize(fdt[..])) then BADOFFSET
                   else if old(DataSize(fdt[..])) - oldlen + newlen > old(Hdr(fdt[..])).totalsize then NOSPACE
                   else 0
    ensures err != 0 ==> fdt[..] == old(fdt[..])
    ensures err == 0 ==>
      Spliced(old(fdt[..]), fdt[..], p, oldlen, newlen, old(DataSize(fdt[..]))) && Hdr(fdt[..]) == old(Hdr(fdt[..]))
  {
    hide Holds, Hdr, Spliced, MoveBytes;
    ghost var s := fdt[..];
    Layout(s, v);
    var h := GetHeader(fdt);
    var end := h.offStrings + h.sizeStrings;
    if p + oldlen > end {
      return BADOFFSET;
    }
    if end - oldlen + newlen > h.totalsize {
      return NOSPACE;
    }
    Memmove(fdt, p + newlen, p + oldlen, end - p - oldlen);
    SpliceMoved(s, p, oldlen, newlen, end);
    err := 0;
  }

  lemma SpliceMoved(s: seq<byte>, p: nat, oldlen: nat, newlen: nat, end: nat)
    requires HEADER <= p && p + oldlen <= end <= |s| && end - oldlen + newlen <= |s|
    ensures var r := MoveBytes(s, p + newlen, p + oldlen, end - p - oldlen);
      Spliced(s, r, p, oldlen, newlen, end) && Hdr(r) == Hdr(s)
  {
    var r := MoveBytes(s, p + newlen, p + oldlen, end - p - oldlen);
    assert r[HEADER..p] == s[HEADER..p];
    assert r[p + newlen..end - oldlen + newlen] == s[p + oldlen..end];
    SameHeader(s, r);
  }

  /** Two header stores after a splice of `s`. */
  method SetHeader2(fdt: array<byte>, w: nat, x: u32, w': nat, x': u32,
                    ghost s: seq<byte>, ghost at: int, ghost oldlen: int, ghost newlen: int, ghost end: int)
    requires HEADER <= fdt.Length && w % 4 == 0 && w < HEADER && w' % 4 == 0 && w' < HEADER
    requires Spliced(s, fdt[..], at, oldlen, newlen, end)
    modifies fdt
    ensures Spliced(s, fdt[..], at, oldlen, newlen, end)
    ensures Hdr(fdt[..]) == SetField(SetField(old(Hdr(fdt[..])), w, x), w', x')
  {
    hide Hdr, Spliced, SetField;
    ghost var s1 := fdt[..];
    SetHeader(fdt, w, x);
    SetHeader(fdt, w', x');
    assert fdt[..][HEADER..] == fdt[HEADER..] == s1[HEADER..];
    SplicedHeaderStore(s, s1, fdt[..], at, oldlen, newlen, end);
  }

  /** _fdt_splice_struct. */
  method SpliceStruct(fdt: array<byte>, p: nat, oldlen: nat, newlen: nat, ghost v: View) returns (err: int)
    requires Holds(fdt[..], v)
    requires HEADER <= p && p + oldlen <= Hdr(fdt[..]).offStruct + Hdr(fdt[..]).sizeStruct
    requires oldlen <= Hdr(fdt[..]).sizeStruct
    modifies fdt
    ensures err == if old(DataSize(fdt[..])) - oldlen + newlen > old(Hdr(fdt[..])).totalsize then NOSPACE else 0
    ensures err != 0 ==> fdt[..] == old(fdt[..])
    ensures err == 0 ==> StructSpliced(old(fdt[..]), fdt[..], p, oldlen, newlen)
  {
    hide Holds, Hdr, Spliced;
    ghost var s := fdt[..];
    Layout(s, v);
    err := Splice(fdt, p, oldlen, newlen, v);
    if err != 0 {
      return;
    }
    var h := GetHeader(fdt);
    SetHeader2(fdt, SIZE_STRUCT, h.sizeStruct + newlen - oldlen, OFF_STRINGS, h.offStrings + newlen - oldlen,
               s, p, oldlen, newlen, DataSize(s));
  }

  // ----- Splicing the strings block and the reserve map

  /** _fdt_splice_string opens a gap at the end of the strings block; writing it
      extends the block. */
  lemma StringsAppendHolds(s: seq<byte>, s': seq<byte>, v: View, more: seq<byte>)
    requires Holds(s, v) && DataSize(s) + |more| <= Hdr(s).totalsize
    requires Spliced(s, s', DataSize(s), 0, |more|, DataSize(s))
    requires Hdr(s') == Hdr(s).(sizeStrings := Hdr(s).sizeStrings + |more|)
    requires s'[DataSize(s)..DataSize(s) + |more|] == more
    ensures Holds(s', v.(strs := v.strs + more))
    ensures v.(strs := v.strs + more).Ev() == v.Ev()
  {
    hide Hdr, Encodes, Size, Events, RsvEnc, Terminated;
    var h := Hdr(s);
    EventsAppendStrings(v.body, v.strs, more);
    Shifted(s, s', HEADER, DataSize(s), 0, h.offRsvmap, h.offRsvmap + 16 * |v.rsv| + 16);
    Shifted(s, s', HEADER, DataSize(s), 0, h.offStruct, h.offStruct + Size(v.Toks()));
    Shifted(s, s', HEADER, DataSize(s), 0, h.offStrings, DataSize(s));
    assert s'[h.offStrings..DataSize(s) + |more|] ==
      s'[h.offStrings..DataSize(s)] + s'[DataSize(s)..DataSize(s) + |more|];
  }

  /** Moving the structure and strings blocks by `d` bytes under a new map. */
  lemma RsvSpliceHolds(s: seq<byte>, s': seq<byte>, v: View, at: int, oldlen: int, newlen: int, rsv: seq<Reserve>)
    requires Holds(s, v) && Spliced(s, s', at, oldlen, newlen, DataSize(s))
    requires Hdr(s).offRsvmap <= at && at + oldlen <= Hdr(s).offRsvmap + 16 * |v.rsv| + 16
    requires DataSize(s) - oldlen + newlen <= Hdr(s).totalsize
    requires 0 <= Hdr(s).offStruct + newlen - oldlen && 0 <= Hdr(s).offStrings + newlen - oldlen
    requires Hdr(s') ==
      Hdr(s).(offStruct := Hdr(s).offStruct + newlen - oldlen, offStrings := Hdr(s).offStrings + newlen - oldlen)
    requires 16 * |rsv| <= 16 * |v.rsv| + newlen - oldlen
    requires RsvEnc(s'[Hdr(s).offRsvmap..Hdr(s).offRsvmap + 16 * |rsv| + 16], rsv)
    ensures Holds(s', v.(rsv := rsv))
  {
    hide Hdr, Encodes, Size, Events, RsvEnc, Terminated;
    var h, d := Hdr(s), newlen - oldlen;
    var v' := v.(rsv := rsv);
    assert v'.Toks() == v.Toks();
    Shifted(s, s', at + oldlen, DataSize(s), d, h.offStruct, h.offStruct + Size(v.Toks()));
    Shifted(s, s', at + oldlen, DataSize(s), d, h.offStrings, DataSize(s));
  }

  /** _fdt_splice_mem_rsv. */
  method SpliceMemRsv(fdt: array<byte>, p: nat, oldn: nat, newn: nat, ghost v: View) returns (err: int)
    requires Holds(fdt[..], v)
    requires Hdr(fdt[..]).offRsvmap <= p && p + 16 * oldn <= Hdr(fdt[..]).offStruct
    modifies fdt
    ensures err == if old(DataSize(fdt[..])) + 16 * (newn - oldn) > old(Hdr(fdt[..])).totalsize then NOSPACE else 0
    ensures err != 0 ==> fdt[..] == old(fdt[..])
    ensures err == 0 ==>
      var h, d := old(Hdr(fdt[..])), 16 * (newn - oldn);
      && Spliced(old(fdt[..]), fdt[..], p, 16 * oldn, 16 * newn, old(DataSize(fdt[..])))
      && 0 <= h.offStruct + d < TWO32 && 0 <= h.offStrings + d < TWO32
      && Hdr(fdt[..]) == h.(offStruct := h.offStruct + d, offStrings := h.offStrings + d)
  {
    hide Holds, Hdr, Spliced;
    ghost var s := fdt[..];
    Layout(s, v);
    var delta := (newn - oldn) * 16;
    err := Splice(fdt, p, oldn * 16, newn * 16, v);
    if err != 0 {
      return;
    }
    var h := GetHeader(fdt);
    SetHeader2(fdt, OFF_STRUCT, h.offStruct + delta, OFF_STRINGS, h.offStrings + delta,
               s, p, 16 * oldn, 16 * newn, DataSize(s));
  }
}
