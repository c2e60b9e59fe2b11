/** The unfinished blob of fdt_sw.c. The structure block grows upwards from the
    reserve map and the strings block grows downwards from the end of the buffer;
    property names are recorded as negative offsets from that end. */
module FdtDraft {
  import opened Memory
  import opened FdtBytes
  import opened FdtTree
  import opened FdtFormat
  import opened FdtBlob
  import opened FdtSplice

  const RSV_START: nat := 48 // FDT_ALIGN(sizeof(struct fdt_header), sizeof(struct fdt_reserve_entry))

  datatype Draft = Draft(rsv: seq<Reserve>, toks: seq<Token>, strs: seq<byte>)

  /** The fix-up of one token for a strings block of `n` bytes: 32-bit addition. */
  function Fix(t: Token, n: nat): Token {
    match t
    case Prop(nameoff, value) => Prop((nameoff + n) % TWO32, value)
    case _ => t
  }

  function FixAll(ts: seq<Token>, n: nat): (r: seq<Token>)
    ensures |r| == |ts| && forall i | 0 <= i < |ts| :: r[i] == Fix(ts[i], n)
  {
    seq(|ts|, i requires 0 <= i < |ts| => Fix(ts[i], n))
  }

  /** Every recorded name offset is negative, reaches into the strings block, and a
      terminated string lies there. */
  ghost predicate NamesOk(ts: seq<Token>, strs: seq<byte>) {
    forall i | 0 <= i < |ts| && ts[i].Prop? :: NameOk(ts[i].nameoff, strs)
  }

  ghost predicate NameOk(nameoff: u32, strs: seq<byte>) {
    && |strs| < TWO31 && TWO32 - |strs| <= nameoff
    && Terminated(strs, nameoff + |strs| - TWO32)
  }

  /** The events recorded so far, names resolved from the end of the buffer. */
  ghost function DraftEvents(d: Draft): seq<Event> {
    Events(FixAll(d.toks, |d.strs|), d.strs)
  }

  ghost predicate Fits(s: seq<byte>, d: Draft) {
    RSV_START + 16 * |d.rsv| + Size(d.toks) + |d.strs| <= |s|
  }

  ghost function DraftHeader(n: u32, d: Draft): Header
    requires RSV_START + 16 * |d.rsv| < TWO32 && |d.strs| < TWO32 && Size(d.toks) < TWO32
  {
    Header(FDT_SW_MAGIC, n, RSV_START + 16 * |d.rsv|, n, RSV_START, 17, 16, 0, |d.strs|, Size(d.toks))
  }

  ghost function StructStart(d: Draft): nat {
    RSV_START + 16 * |d.rsv|
  }

  /** The buffer holds the draft; the three parts do not overlap. Only a buffer of 40 to
      47 bytes is exempt: its header says that the structure block starts behind it. */
  ghost predicate Drafts(s: seq<byte>, d: Draft) {
    && HEADER <= |s| < TWO31
    && (d.rsv != [] || d.toks != [] || d.strs != [] || RSV_START <= |s| ==> Fits(s, d))
    && RSV_START + 16 * |d.rsv| < TWO32 && |d.strs| < TWO32 && Size(d.toks) < TWO32
    && Hdr(s) == DraftHeader(|s|, d)
    && NamesOk(d.toks, d.strs) && End !in d.toks
    && (forall i | 0 <= i < |d.rsv| :: EntryAt(s, RSV_START + 16 * i, d.rsv[i]))
    && (Fits(s, d) ==> Parts(s, d))
  }

  ghost predicate Parts(s: seq<byte>, d: Draft)
    requires Fits(s, d)
  {
    && Encodes(s[StructStart(d)..StructStart(d) + Size(d.toks)], d.toks)
    && s[|s| - |d.strs|..] == d.strs
  }

  // ----- Strings are only ever put in front

  lemma NamePrepended(nameoff: u32, more: seq<byte>, strs: seq<byte>)
    requires NameOk(nameoff, strs) && |more + strs| < TWO31
    ensures NameOk(nameoff, more + strs)
    ensures NameAt(more + strs, (nameoff + |more + strs|) % TWO32) == NameAt(strs, (nameoff + |strs|) % TWO32)
  {
    hide Terminated, NameAt;
    NamePrepend(more, strs, nameoff + |strs| - TWO32);
    Wraps(nameoff, |strs|);
    Wraps(nameoff, |more + strs|);
  }

  lemma Wraps(nameoff: u32, n: nat)
    requires TWO32 - n <= nameoff && n < TWO31
    ensures (nameoff + n) % TWO32 == nameoff + n - TWO32
  {
  }

  /** A string added at the lower end leaves every recorded name as it was. */
  lemma {:induction false} EventsPrepended(ts: seq<Token>, more: seq<byte>, strs: seq<byte>)
    requires NamesOk(ts, strs) && |more + strs| < TWO31
    ensures NamesOk(ts, more + strs)
    ensures Events(FixAll(ts, |more + strs|), more + strs) == Events(FixAll(ts, |strs|), strs)
  {
    hide NameAt, NameOk, Fix, EventOf;
    forall i | 0 <= i < |ts| && ts[i].Prop?
      ensures NameOk(ts[i].nameoff, more + strs)
    {
      NamePrepended(ts[i].nameoff, more, strs);
    }
    if ts != [] {
      var n := |ts| - 1;
      EventsPrepended(ts[..n], more, strs);
      assert FixAll(ts, |strs|)[..n] == FixAll(ts[..n], |strs|);
      assert FixAll(ts, |more + strs|)[..n] == FixAll(ts[..n], |more + strs|);
      EventPrepended(ts[n], more, strs);
    }
  }

  lemma EventPrepended(t: Token, more: seq<byte>, strs: seq<byte>)
    requires (t.Prop? ==> NameOk(t.nameoff, strs)) && |more + strs| < TWO31
    ensures EventOf(Fix(t, |more + strs|), more + strs) == EventOf(Fix(t, |strs|), strs)
  {
    hide NameAt, NameOk;
    if t.Prop? {
      NamePrepended(t.nameoff, more, strs);
    }
  }

  lemma FixResolvable(ts: seq<Token>, strs: seq<byte>)
    requires NamesOk(ts, strs)
    ensures Resolvable(FixAll(ts, |strs|), strs)
  {
    hide Terminated;
    forall i | 0 <= i < |ts| && FixAll(ts, |strs|)[i].Prop?
      ensures Terminated(strs, FixAll(ts, |strs|)[i].nameoff)
    {
      assert NameOk(ts[i].nameoff, strs);
      assert (ts[i].nameoff + |strs|) % TWO32 == ts[i].nameoff + |strs| - TWO32;
    }
  }

  lemma DraftEventsSnoc(d: Draft, t: Token)
    ensures DraftEvents(d.(toks := d.toks + [t])) == DraftEvents(d) + EventOf(Fix(t, |d.strs|), d.strs)
  {
    hide Events;
    assert FixAll(d.toks + [t], |d.strs|) == FixAll(d.toks, |d.strs|) + [Fix(t, |d.strs|)];
    EventsConcat(FixAll(d.toks, |d.strs|), [Fix(t, |d.strs|)], d.strs);
    EventsOne(Fix(t, |d.strs|), d.strs);
  }

  // ----- Appending a token

  /** The structure grew by `len` bytes and only those bytes may differ. */
  ghost predicate Grown(s: seq<byte>, s': seq<byte>, d: Draft, len: nat) {
    && HEADER <= |s|
    && Spliced(s, s', StructStart(d) + Size(d.toks), len, len, |s|)
    && Hdr(s).sizeStruct + len < TWO32
    && Hdr(s') == Hdr(s).(sizeStruct := Hdr(s).sizeStruct + len)
  }

  lemma GrownWrite(s: seq<byte>, s': seq<byte>, d: Draft, len: nat, x: int, b: seq<byte>)
    requires Grown(s, s', d, len) && StructStart(d) + Size(d.toks) <= x
    requires x + |b| <= StructStart(d) + Size(d.toks) + len
    ensures 0 <= x && x + |b| <= |s'|
    ensures Grown(s, PutBytes(s', x, b), d, len)
  {
    hide Hdr, PutBytes, Size;
    SplicedWrite(s, s', StructStart(d) + Size(d.toks), len, len, |s|, x, b);
  }

  lemma GrownBounds(s: seq<byte>, s': seq<byte>, d: Draft, len: nat)
    requires Grown(s, s', d, len)
    ensures |s'| == |s| && HEADER <= StructStart(d) + Size(d.toks) && StructStart(d) + Size(d.toks) + len <= |s|
  {
  }

  lemma AppendToken(s: seq<byte>, s': seq<byte>, d: Draft, t: Token)
    requires Drafts(s, d) && Fits(s, d) && Grown(s, s', d, TokLen(t))
    requires StructStart(d) + Size(d.toks) + TokLen(t) + |d.strs| <= |s|
    requires var z := StructStart(d) + Size(d.toks); z + TokLen(t) <= |s'| && TokEnc(s'[z..z + TokLen(t)], t)
    requires t != End && (t.Prop? ==> NameOk(t.nameoff, d.strs))
    ensures Drafts(s', d.(toks := d.toks + [t]))
  {
    hide Hdr, Encodes, Size, TokEnc, EntryAt, NameOk, TokLen;
    var d' := d.(toks := d.toks + [t]);
    SizeConcat(d.toks, [t]);
    SizeOne(t);
    var o, z := StructStart(d), StructStart(d) + Size(d.toks);
    Shifted(s, s', HEADER, z, 0, o, z);
    EncodesSnoc(s'[o..z], d.toks, s'[z..z + TokLen(t)], t);
    assert s'[o..z] + s'[z..z + TokLen(t)] == s'[o..z + TokLen(t)];
    GrownTail(s, s', d, TokLen(t));
    GrownEntries(s, s', d, TokLen(t));
    assert NamesOk(d'.toks, d'.strs);
  }

  lemma GrownTail(s: seq<byte>, s': seq<byte>, d: Draft, len: nat)
    requires Grown(s, s', d, len) && StructStart(d) + Size(d.toks) + len + |d.strs| <= |s|
    ensures |s'| == |s| && s'[|s| - |d.strs|..] == s[|s| - |d.strs|..]
  {
    var z, q := StructStart(d) + Size(d.toks), |s| - |d.strs|;
    Shifted(s, s', z + len, |s|, 0, q, |s|);
    assert s'[q..] == s'[q..|s'|] && s[q..] == s[q..|s|];
  }

  lemma GrownEntries(s: seq<byte>, s': seq<byte>, d: Draft, len: nat)
    requires Grown(s, s', d, len)
    requires forall i | 0 <= i < |d.rsv| :: EntryAt(s, RSV_START + 16 * i, d.rsv[i])
    ensures forall i | 0 <= i < |d.rsv| :: EntryAt(s', RSV_START + 16 * i, d.rsv[i])
  {
    hide Word64, Size, Hdr;
    forall i | 0 <= i < |d.rsv|
      ensures EntryAt(s', RSV_START + 16 * i, d.rsv[i])
    {
      assert EntryAt(s, RSV_START + 16 * i, d.rsv[i]);
      EntryMoved(s, s', StructStart(d) + Size(d.toks), RSV_START + 16 * i, d.rsv[i]);
    }
  }

  lemma EntryMoved(s: seq<byte>, s': seq<byte>, z: nat, x: nat, r: Reserve)
    requires EntryAt(s, x, r) && HEADER <= x && x + 16 <= z <= |s| && z <= |s'| && s'[HEADER..z] == s[HEADER..z]
    ensures EntryAt(s', x, r)
  {
    hide Word64;
    Shifted(s, s', HEADER, z, 0, x, x + 8);
    Shifted(s, s', HEADER, z, 0, x + 8, x + 16);
    Word64Slice(s', x, s, x);
    Word64Slice(s', x + 8, s, x + 8);
  }
}
