/** fdt_finish: the end tag, the relocation of the strings, and the walk that turns
    negative name offsets into offsets in the strings block. */
module FdtFinish {
  import opened Memory
  import opened FdtBytes
  import opened FdtFormat
  import opened FdtBlob
  import opened FdtSplice
  import opened FdtEdit
  import opened FdtReserve
  import opened FdtPack
  import opened FdtDraft
  import opened FdtWriter

  /** The map was closed: exactly the last entry has size zero. */
  predicate ReserveDone(rsv: seq<Reserve>) {
    rsv != [] && rsv[|rsv| - 1].size == 0 && forall i | 0 <= i < |rsv| - 1 :: rsv[i].size != 0
  }

  /** Between the relocation and the end of the walk: the structure block holds
      the tokens `ts`. */
  ghost predicate Relocated(s: seq<byte>, d: Draft, ts: seq<Token>) {
    && HEADER <= |s| < TWO31
    && StructStart(d) + Size(ts) + |d.strs| <= |s|
    && Hdr(s) == Header(FDT_SW_MAGIC, |s|, StructStart(d), StructStart(d) + Size(ts), RSV_START, 17, 16, 0, |d.strs|,
      Size(ts))
    && Encodes(s[StructStart(d)..StructStart(d) + Size(ts)], ts)
    && Has(s, StructStart(d) + Size(ts), d.strs)
    && (forall i | 0 <= i < |d.rsv| :: EntryAt(s, RSV_START + 16 * i, d.rsv[i]))
  }

  /** Patching the name offset of token `k`. */
  lemma PatchName(s: seq<byte>, o: nat, ts: seq<Token>, k: nat, n: nat)
    requires o + Size(ts) <= |s| && Encodes(s[o..o + Size(ts)], ts) && k < |ts| && ts[k].Prop?
    ensures var z := o + Size(ts[..k]);
      && z + 12 <= z + TokLen(ts[k]) <= o + Size(ts)
      && Word(s, z + 8) == ts[k].nameoff
      && Size(ts[k := Fix(ts[k], n)]) == Size(ts)
      && Encodes(PutWord(s, z + 8, (ts[k].nameoff + n) % TWO32)[o..o + Size(ts)], ts[k := Fix(ts[k], n)])
  {
    hide Encodes, Size, Word;
    var b, z0, t := s[o..o + Size(ts)], Size(ts[..k]), ts[k];
    var l := TokLen(t);
    TokenAt(b, ts, k);
    SliceSlice(s, o, o + Size(ts), z0, z0 + l);
    var z, x := o + z0, (t.nameoff + n) % TWO32;
    WordAtSlice(s, z, l, 8);
    var s' := PutWord(s, z + 8, x);
    var b' := s'[o..o + Size(ts)];
    PatchedToken(s, z, t, x);
    EncodesOne(s'[z..z + l], Prop(x, t.value));
    EncodesSplice(b, ts, k, k + 1, s'[z..z + l], [Prop(x, t.value)]);
    assert ts[..k] + [Prop(x, t.value)] + ts[k + 1..] == ts[k := Fix(t, n)];
    PatchedBlock(s, o, Size(ts), z0, l, x);
    EncodesSize(b', ts[k := Fix(t, n)]);
  }

  lemma PatchedBlock(s: seq<byte>, o: nat, n: nat, z: nat, l: nat, x: u32)
    requires o + n <= |s| && z + l <= n && 12 <= l
    ensures var s' := PutWord(s, o + z + 8, x);
      s'[o..o + n] == s[o..o + n][..z] + s'[o + z..o + z + l] + s[o..o + n][z + l..]
  {
    var s' := PutWord(s, o + z + 8, x);
    ThreeParts(s', o, o + z, o + z + l, o + n);
    PutKeeps(s, o + z + 8, EncWord(x), o, o + z);
    PutKeeps(s, o + z + 8, EncWord(x), o + z + l, o + n);
    SliceSlice(s, o, o + n, 0, z);
    SliceSlice(s, o, o + n, z + l, n);
    assert s[o..o + n][..z] == s[o..o + n][0..z] && s[o..o + n][z + l..] == s[o..o + n][z + l..n];
  }

  lemma PatchedToken(s: seq<byte>, z: nat, t: Token, x: u32)
    requires t.Prop? && z + TokLen(t) <= |s| && TokEnc(s[z..z + TokLen(t)], t)
    ensures TokEnc(PutWord(s, z + 8, x)[z..z + TokLen(t)], Prop(x, t.value))
  {
    hide Word, PutBytes;
    var l := TokLen(t);
    WordAtSlice(s, z, l, 0);
    WordAtSlice(s, z, l, 4);
    SliceSlice(s, z, z + l, 12, 12 + |t.value|);
    PutWordEffect(s, z + 8, x);
    PutKeeps(s, z + 8, EncWord(x), z + 12, z + 12 + |t.value|);
    PropEncoded(PutWord(s, z + 8, x), z, x, t.value);
  }

  lemma PatchKeeps(s: seq<byte>, d: Draft, ts: seq<Token>, k: nat)
    requires Relocated(s, d, ts) && k < |ts| && ts[k].Prop?
    ensures var z := StructStart(d) + Size(ts[..k]);
      && z + 12 <= |s| && Word(s, z + 8) == ts[k].nameoff
      && Relocated(PutWord(s, z + 8, (ts[k].nameoff + |d.strs|) % TWO32), d, ts[k := Fix(ts[k], |d.strs|)])
  {
    hide Hdr, Encodes, Size, Word, EntryAt;
    var o, z, x := StructStart(d), StructStart(d) + Size(ts[..k]), (ts[k].nameoff + |d.strs|) % TWO32;
    PatchName(s, o, ts, k, |d.strs|);
    var s' := PutWord(s, z + 8, x);
    HighWrite(s, z + 8, EncWord(x));
    var q := o + Size(ts);
    PutKeeps(s, z + 8, EncWord(x), q, q + |d.strs|);
    PutKeeps(s, z + 8, EncWord(x), HEADER, o);
    forall i | 0 <= i < |d.rsv|
      ensures EntryAt(s', RSV_START + 16 * i, d.rsv[i])
    {
      EntryMoved(s, s', o, RSV_START + 16 * i, d.rsv[i]);
    }
  }

  /** The first `k` tokens fixed, the rest as recorded. */
  function FixedTo(ts: seq<Token>, k: nat, n: nat): seq<Token>
    requires k <= |ts|
  {
    FixAll(ts[..k], n) + ts[k..]
  }

  lemma FixedStep(ts: seq<Token>, k: nat, n: nat)
    requires k < |ts|
    ensures |FixedTo(ts, k, n)| == |ts| && FixedTo(ts, k, n)[k] == ts[k]
    ensures FixedTo(ts, k + 1, n) == FixedTo(ts, k, n)[k := Fix(ts[k], n)]
  {
  }

  lemma {:induction false} FixedSize(ts: seq<Token>, n: nat)
    ensures Size(FixAll(ts, n)) == Size(ts)
  {
    if ts != [] {
      var k := |ts| - 1;
      FixedSize(ts[..k], n);
      assert FixAll(ts, n)[..k] == FixAll(ts[..k], n);
    }
  }

  lemma FixedPrefix(ts: seq<Token>, k: nat, n: nat)
    requires k <= |ts|
    ensures |FixedTo(ts, k, n)| == |ts|
    ensures Size(FixedTo(ts, k, n)[..k]) == Size(ts[..k]) && Size(FixedTo(ts, k, n)) == Size(ts)
  {
    hide Size;
    FixedSize(ts[..k], n);
    assert FixedTo(ts, k, n)[..k] == FixAll(ts[..k], n);
    SizeConcat(FixAll(ts[..k], n), ts[k..]);
    SizeSplit(ts, k);
  }

  lemma RelocatedTag(s: seq<byte>, d: Draft, ts: seq<Token>, k: nat)
    requires Relocated(s, d, ts) && k < |ts|
    ensures TagFrom(s[StructStart(d)..StructStart(d) + Size(ts)], Size(ts[..k])) == (TagOf(ts[k]), Size(ts[..k + 1]))
  {
    hide TagFrom, Encodes, Hdr, Size, EntryAt, Has;
    TagAtToken(s[StructStart(d)..StructStart(d) + Size(ts)], ts, k);
  }

  /** The walk of fdt_finish. */
  method FixNames(fdt: array<byte>, ghost d: Draft)
    requires Relocated(fdt[..], d, d.toks + [End]) && End !in d.toks
    modifies fdt
    ensures Relocated(fdt[..], d, FixAll(d.toks, |d.strs|) + [End])
  {
    hide Hdr, Size, Relocated, FixedTo;
    ghost var all, n := d.toks + [End], |d.strs|;
    RelocatedFacts(fdt[..], d, all);
    var h := GetHeader(fdt);
    var offset := 0;
    ghost var k := 0;
    FixedEnds(d.toks, n);
    EmptySize();
    while true
      invariant 0 <= k < |all| && offset == Size(all[..k])
      invariant Relocated(fdt[..], d, FixedTo(all, k, n))
      invariant h.offStruct == StructStart(d) && h.sizeStruct == Size(all) && h.sizeStrings == n
      decreases |all| - k
    {
      var tag, next := FixStep(fdt, h, offset, d, all, k);
      if tag == FDT_END {
        return;
      }
      offset := next;
      k := k + 1;
    }
  }

  lemma FixedEnds(toks: seq<Token>, n: nat)
    ensures FixedTo(toks + [End], 0, n) == toks + [End]
    ensures FixedTo(toks + [End], |toks|, n) == FixAll(toks, n) + [End]
  {
    assert (toks + [End])[..|toks|] == toks && (toks + [End])[|toks|..] == [End];
  }

  /** One tag of the walk. */
  method FixStep(fdt: array<byte>, h: Header, offset: nat, ghost d: Draft, ghost all: seq<Token>, ghost k: nat)
    returns (tag: int, next: int)
    requires k < |all| && offset == Size(all[..k]) && Relocated(fdt[..], d, FixedTo(all, k, |d.strs|))
    requires h.offStruct == StructStart(d) && h.sizeStruct == Size(all) && h.sizeStrings == |d.strs|
    modifies fdt
    ensures tag == TagOf(all[k]) && next == Size(all[..k + 1])
    ensures Relocated(fdt[..], d, FixedTo(all, k + 1, |d.strs|))
    ensures tag == FDT_END ==> fdt[..] == old(fdt[..])
  {
    hide Hdr, TagFrom, Size, Relocated, FixedTo, PutWord;
    ghost var n := |d.strs|;
    ghost var ts := FixedTo(all, k, n);
    FixedPrefix(all, k, n);
    FixedStep(all, k, n);
    SameStep(all, k, n);
    RelocatedFacts(fdt[..], d, ts);
    RelocatedTag(fdt[..], d, ts, k);
    SizeMonotone(all, k, |all|);
    assert all[..|all|] == all;
    tag, next := NextTagIn(fdt, h.offStruct, h.sizeStruct, offset);
    assert fdt[..][h.offStruct..h.offStruct + h.sizeStruct] == fdt[h.offStruct..h.offStruct + h.sizeStruct];
    if tag == FDT_PROP {
      PatchKeeps(fdt[..], d, ts, k);
      var nameoff := LoadWord(fdt, h.offStruct + offset + 8);
      StoreWord(fdt, h.offStruct + offset + 8, (nameoff + h.sizeStrings) % TWO32);
    } else {
      assert ts[k := Fix(all[k], n)] == ts;
    }
  }

  lemma SameStep(ts: seq<Token>, k: nat, n: nat)
    requires k < |ts|
    ensures |FixedTo(ts, k, n)| == |ts| && Size(FixedTo(ts, k, n)[..k + 1]) == Size(ts[..k + 1])
  {
    FixedPrefix(ts, k, n);
    FixedStep(ts, k, n);
    SizeStep(FixedTo(ts, k, n), k);
    SizeStep(ts, k);
  }

  lemma EmptySize()
    ensures forall ts: seq<Token> :: Size(ts[..0]) == 0
  {
  }

  lemma RelocatedFacts(s: seq<byte>, d: Draft, ts: seq<Token>)
    requires Relocated(s, d, ts)
    ensures HEADER <= |s| < TWO31 && StructStart(d) + Size(ts) + |d.strs| <= |s|
    ensures Hdr(s) == Header(FDT_SW_MAGIC, |s|, StructStart(d), StructStart(d) + Size(ts), RSV_START, 17, 16, 0,
      |d.strs|, Size(ts))
  {
  }

  /** What the finished blob says. */
  ghost function Finished(d: Draft): View
    requires ReserveDone(d.rsv)
  {
    View(d.rsv[..|d.rsv| - 1], FixAll(d.toks, |d.strs|), d.strs)
  }

  /** fdt_finish: on success the buffer is a complete blob that records exactly
      the map and the events of the draft. */
  method Finish(fdt: array<byte>, ghost d: Draft) returns (err: int)
    requires Drafts(fdt[..], d)
    modifies fdt
    ensures err == if !Fits(old(fdt[..]), d) then OUTSIDE
                   else if StructStart(d) + Size(d.toks) + 4 + |d.strs| > fdt.Length then NOSPACE else 0
    ensures err == NOSPACE ==> fdt[..] == old(fdt[..])
    ensures err == 0 && ReserveDone(d.rsv) ==> Holds(fdt[..], Finished(d)) && Finished(d).Ev() == DraftEvents(d)
    ensures err == 0 && ReserveDone(d.rsv) ==> Hdr(fdt[..]).totalsize == DataSize(fdt[..])
  {
    hide Hdr, Drafts, Size, Relocated, Holds, DraftEvents, Finished, FixAll, MoveBytes, Ended, ReserveDone;
    ghost var s := fdt[..];
    DraftFacts(s, d);
    var z := Terminate(fdt, d);
    if z < 0 {
      return NOSPACE;
    } else if z + 4 > fdt.Length {
      return OUTSIDE;
    }
    ghost var s2 := fdt[..];
    EndedFacts(s2, d);
    var h := GetHeader(fdt);
    Memmove(fdt, z + 4, h.totalsize - h.sizeStrings, h.sizeStrings);
    ghost var s3 := fdt[..];
    StringsMoved(s2, d);
    SetHeader(fdt, OFF_STRINGS, z + 4);
    Relocate(s2, s3, fdt[..], d);
    FixNames(fdt, d);
    ghost var s4 := fdt[..];
    FixedFacts(d);
    RelocatedFacts(s4, d, FixAll(d.toks, |d.strs|) + [End]);
    SetHeader(fdt, TOTALSIZE, z + 4 + h.sizeStrings);
    SetHeader(fdt, MAGIC, FDT_MAGIC);
    if ReserveDone(d.rsv) {
      Complete(s, s4, fdt[..], d);
    }
    err := 0;
  }

  /** The end tag. */
  method Terminate(fdt: array<byte>, ghost d: Draft) returns (z: int)
    requires Drafts(fdt[..], d)
    modifies fdt
    ensures z < 0 <==> Fits(fdt[..], d) && StructStart(d) + Size(d.toks) + 4 + |d.strs| > fdt.Length
    ensures z < 0 ==> fdt[..] == old(fdt[..])
    ensures z >= 0 ==> z == StructStart(d) + Size(d.toks) && (z + 4 <= fdt.Length <==> Fits(fdt[..], d))
    ensures z >= 0 && Fits(fdt[..], d) ==> Ended(fdt[..], d)
  {
    hide Hdr, Drafts, Size, Grown, Ended, PutWord;
    ghost var s := fdt[..];
    z := GrabSpace(fdt, 4, d);
    if 0 <= z <= fdt.Length - 4 {
      ghost var s1 := fdt[..];
      GrownBounds(s, s1, d, 4);
      StoreWord(fdt, z, FDT_END);
      EndWritten(s, s1, d);
    }
  }

  lemma EndedFacts(s: seq<byte>, d: Draft)
    requires Ended(s, d)
    ensures HEADER <= |s| < TWO31 && StructStart(d) + Size(d.toks) + 4 + |d.strs| <= |s|
    ensures Hdr(s).totalsize == |s| && Hdr(s).sizeStrings == |d.strs|
  {
  }

  lemma FixedFacts(d: Draft)
    ensures Size(FixAll(d.toks, |d.strs|) + [End]) == Size(d.toks) + 4
  {
    FixedSize(d.toks, |d.strs|);
    SizeConcat(FixAll(d.toks, |d.strs|), [End]);
    SizeOne(End);
  }

  /** The end tag is in place; the strings are still at the far end. */
  ghost predicate Ended(s: seq<byte>, d: Draft) {
    && HEADER <= |s| < TWO31
    && StructStart(d) + Size(d.toks) + 4 + |d.strs| <= |s|
    && Hdr(s) == Header(FDT_SW_MAGIC, |s|, StructStart(d), |s|, RSV_START, 17, 16, 0, |d.strs|, Size(d.toks) + 4)
    && Encodes(s[StructStart(d)..StructStart(d) + Size(d.toks) + 4], d.toks + [End])
    && Has(s, |s| - |d.strs|, d.strs)
    && (forall i | 0 <= i < |d.rsv| :: EntryAt(s, RSV_START + 16 * i, d.rsv[i]))
  }

  lemma EndWritten(s: seq<byte>, s1: seq<byte>, d: Draft)
    requires Drafts(s, d) && Fits(s, d) && Grown(s, s1, d, 4)
    requires StructStart(d) + Size(d.toks) + 4 + |d.strs| <= |s|
    ensures |s1| == |s| && Ended(PutWord(s1, StructStart(d) + Size(d.toks), FDT_END), d)
  {
    hide Encodes, Size, EntryAt, Word, Hdr, NamesOk, PutBytes;
    var o, z := StructStart(d), StructStart(d) + Size(d.toks);
    GrownBounds(s, s1, d, 4);
    var s2 := PutWord(s1, z, FDT_END);
    GrownWrite(s, s1, d, 4, z, EncWord(FDT_END));
    PutWordEffect(s1, z, FDT_END);
    WordAtSlice(s2, z, 4, 0);
    Shifted(s, s2, HEADER, z, 0, o, z);
    EncodesSnoc(s2[o..z], d.toks, s2[z..z + 4], End);
    assert s2[o..z] + s2[z..z + 4] == s2[o..z + 4];
    GrownTail(s, s2, d, 4);
    assert s2[|s2| - |d.strs|..] == s2[|s2| - |d.strs|..|s2| - |d.strs| + |d.strs|];
    GrownEntries(s, s2, d, 4);
  }

  lemma StringsMoved(s: seq<byte>, d: Draft)
    requires Ended(s, d)
    ensures Hdr(MoveBytes(s, StructStart(d) + Size(d.toks) + 4, |s| - |d.strs|, |d.strs|)) == Hdr(s)
  {
    hide Hdr, Encodes, Size, EntryAt, MoveBytes, Has;
    MoveTo(s, StructStart(d) + Size(d.toks) + 4, |s| - |d.strs|, |d.strs|, d.strs);
  }

  lemma Relocate(s2: seq<byte>, s3: seq<byte>, s4: seq<byte>, d: Draft)
    requires Ended(s2, d)
    requires s3 == MoveBytes(s2, StructStart(d) + Size(d.toks) + 4, |s2| - |d.strs|, |d.strs|)
    requires |s4| == |s3| && s4[HEADER..] == s3[HEADER..]
    requires Hdr(s4) == Hdr(s2).(offStrings := StructStart(d) + Size(d.toks) + 4)
    ensures Relocated(s4, d, d.toks + [End])
  {
    hide Encodes, Size, EntryAt, Hdr, MoveBytes, Has;
    var o, q := StructStart(d), StructStart(d) + Size(d.toks) + 4;
    SizeConcat(d.toks, [End]);
    SizeOne(End);
    var b := s2[o..q];
    HasSlice(s2, o, q);
    HasSlice(s2, HEADER, o);
    MoveHas(s2, q, |s2| - |d.strs|, |d.strs|, o, b);
    MoveHas(s2, q, |s2| - |d.strs|, |d.strs|, HEADER, s2[HEADER..o]);
    MoveTo(s2, q, |s2| - |d.strs|, |d.strs|, d.strs);
    HeaderHas(s3, s4, o, b);
    HeaderHas(s3, s4, HEADER, s2[HEADER..o]);
    HeaderHas(s3, s4, q, d.strs);
    SliceHas(s4, o, b);
    SliceHas(s4, HEADER, s2[HEADER..o]);
    forall i | 0 <= i < |d.rsv|
      ensures EntryAt(s4, RSV_START + 16 * i, d.rsv[i])
    {
      EntryMoved(s2, s4, o, RSV_START + 16 * i, d.rsv[i]);
    }
  }

  lemma HasSlice(s: seq<byte>, x: nat, y: nat)
    requires x <= y <= |s|
    ensures Has(s, x, s[x..y])
  {
  }

  lemma SliceHas(s: seq<byte>, x: nat, b: seq<byte>)
    requires Has(s, x, b)
    ensures x + |b| <= |s| && s[x..x + |b|] == b
  {
  }

  lemma Complete(s: seq<byte>, s4: seq<byte>, s5: seq<byte>, d: Draft)
    requires Drafts(s, d) && ReserveDone(d.rsv)
    requires Relocated(s4, d, FixAll(d.toks, |d.strs|) + [End])
    requires |s5| == |s4| && s5[HEADER..] == s4[HEADER..]
    requires StructStart(d) + Size(d.toks) + 4 + |d.strs| < TWO32
    requires Hdr(s5) == Hdr(s4).(totalsize := StructStart(d) + Size(d.toks) + 4 + |d.strs|, magic := FDT_MAGIC)
    ensures Holds(s5, Finished(d)) && Finished(d).Ev() == DraftEvents(d)
    ensures Hdr(s5).totalsize == DataSize(s5)
  {
    hide Encodes, Size, Hdr, Events, RsvEnc, Terminated, Holds, Has, EntryAt, NameOk;
    var v, o, m := Finished(d), StructStart(d), |d.rsv| - 1;
    FixedFacts(d);
    FixResolvable(d.toks, d.strs);
    assert v.Toks() == FixAll(d.toks, |d.strs|) + [End];
    TailSlice(s4, s5, HEADER, o);
    TailSlice(s4, s5, o, o + Size(v.Toks()));
    HeaderHas(s4, s5, o + Size(v.Toks()), d.strs);
    HasSlice(s5, RSV_START, o);
    HasSlice(s5, o, o + Size(v.Toks()));
    ClosedMap(s4, s5, d);
    NoEndFixed(d.toks, |d.strs|);
    Assemble(s5, v, s5[RSV_START..o], s5[o..o + Size(v.Toks())]);
  }

  lemma NoEndFixed(ts: seq<Token>, n: nat)
    requires End !in ts
    ensures End !in FixAll(ts, n)
  {
  }

  lemma ClosedMap(s4: seq<byte>, s5: seq<byte>, d: Draft)
    requires ReserveDone(d.rsv) && StructStart(d) <= |s4| && StructStart(d) <= |s5|
    requires s5[HEADER..StructStart(d)] == s4[HEADER..StructStart(d)]
    requires forall i | 0 <= i < |d.rsv| :: EntryAt(s4, RSV_START + 16 * i, d.rsv[i])
    ensures RsvEnc(s5[RSV_START..StructStart(d)], d.rsv[..|d.rsv| - 1])
  {
    hide Word64, RsvEnc;
    var m := |d.rsv| - 1;
    var rsv := d.rsv[..m];
    forall i | 0 <= i <= m
      ensures EntryAt(s5, RSV_START + 16 * i, d.rsv[i])
    {
      assert EntryAt(s4, RSV_START + 16 * i, d.rsv[i]);
      EntryMoved(s4, s5, StructStart(d), RSV_START + 16 * i, d.rsv[i]);
    }
    assert EntryAt(s5, RSV_START + 16 * m, d.rsv[m]);
    assert MapAt(s5, RSV_START, rsv);
    MapIsEnc(s5, RSV_START, rsv);
  }
}
