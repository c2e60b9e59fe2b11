/** The bytes of a blob fix what it says: its reserve map, its tokens, its strings
    and its tree. */
module FdtUnique {
  import opened Memory
  import opened FdtBytes
  import opened FdtTree
  import opened FdtFormat
  import opened FdtBlob

  /** The first bytes of a token say what it is and how long. */
  lemma TokenUnique(b: seq<byte>, z: nat, t: Token, u: Token)
    requires z + TokLen(t) <= |b| && z + TokLen(u) <= |b|
    requires TokEnc(b[z..z + TokLen(t)], t) && TokEnc(b[z..z + TokLen(u)], u)
    ensures t == u
  {
    hide Word, Align4;
    WordAtSlice(b, z, TokLen(t), 0);
    WordAtSlice(b, z, TokLen(u), 0);
    assert TagOf(t) == TagOf(u);
    match t {
      case Begin(name) =>
        BeginName(b, z, name);
        BeginName(b, z, u.name);
        StrUnique(b, z + 4, name, u.name);
      case Prop(nameoff, value) =>
        PropFields(b, z, nameoff, value);
        PropFields(b, z, u.nameoff, u.value);
      case _ =>
    }
  }

  lemma BeginName(b: seq<byte>, z: nat, name: Name)
    requires z + TokLen(Begin(name)) <= |b| && TokEnc(b[z..z + TokLen(Begin(name))], Begin(name))
    ensures IsStr(b, z + 4, name)
  {
    hide Word;
    var l := TokLen(Begin(name));
    SliceSlice(b, z, z + l, 4, 4 + |name|);
    assert b[z..z + l][4 + |name|] == b[z + 4 + |name|];
  }

  lemma PropFields(b: seq<byte>, z: nat, nameoff: u32, value: seq<byte>)
    requires z + TokLen(Prop(nameoff, value)) <= |b|
    requires TokEnc(b[z..z + TokLen(Prop(nameoff, value))], Prop(nameoff, value))
    ensures z + 12 + |value| <= |b| && Word(b, z + 4) == |value| && Word(b, z + 8) == nameoff
    ensures b[z + 12..z + 12 + |value|] == value
  {
    hide Word;
    var l := TokLen(Prop(nameoff, value));
    WordAtSlice(b, z, l, 4);
    WordAtSlice(b, z, l, 8);
    SliceSlice(b, z, z + l, 12, 12 + |value|);
  }

  lemma {:induction false} SamePrefix(b: seq<byte>, ts: seq<Token>, us: seq<Token>, k: nat)
    requires Encodes(b, ts) && Encodes(b, us) && k <= |ts| && k <= |us|
    ensures ts[..k] == us[..k]
    decreases k
  {
    hide Encodes, TokEnc, Size, TokLen;
    if k > 0 {
      SamePrefix(b, ts, us, k - 1);
      TokenAt(b, ts, k - 1);
      TokenAt(b, us, k - 1);
      TokenUnique(b, Size(ts[..k - 1]), ts[k - 1], us[k - 1]);
      assert ts[..k] == ts[..k - 1] + [ts[k - 1]] && us[..k] == us[..k - 1] + [us[k - 1]];
    }
  }

  /** Bytes encode at most one token list. */
  lemma TokensUnique(b: seq<byte>, ts: seq<Token>, us: seq<Token>)
    requires Encodes(b, ts) && Encodes(b, us)
    ensures ts == us
  {
    hide Encodes;
    EncodesSize(b, ts);
    EncodesSize(b, us);
    var k := if |ts| <= |us| then |ts| else |us|;
    SamePrefix(b, ts, us, k);
    assert ts[..|ts|] == ts && us[..|us|] == us;
    SizeMonotone(ts, k, |ts|);
    SizeMonotone(us, k, |us|);
  }

  lemma MapWords(s: seq<byte>, o: nat, rsv: seq<Reserve>, i: nat)
    requires o + 16 * |rsv| + 16 <= |s| && RsvEnc(Block(s, o, 16 * |rsv| + 16), rsv) && i <= |rsv|
    ensures i < |rsv| ==>
      Word64(s, o + 16 * i) == rsv[i].address && Word64(s, o + 16 * i + 8) == rsv[i].size && rsv[i].size != 0
    ensures i == |rsv| ==> Word64(s, o + 16 * i + 8) == 0
  {
    hide Word64;
    var b := Block(s, o, 16 * |rsv| + 16);
    SliceSlice(s, o, o + 16 * |rsv| + 16, 16 * i, 16 * i + 8);
    SliceSlice(s, o, o + 16 * |rsv| + 16, 16 * i + 8, 16 * i + 16);
    Word64Slice(s, o + 16 * i, b, 16 * i);
    Word64Slice(s, o + 16 * i + 8, b, 16 * i + 8);
    assert i < |rsv| ==> EntryAt(b, 16 * i, rsv[i]);
  }

  /** The reserve map ends at the first entry of size zero. */
  lemma MapUnique(s: seq<byte>, o: nat, a: seq<Reserve>, c: seq<Reserve>)
    requires o + 16 * |a| + 16 <= |s| && RsvEnc(Block(s, o, 16 * |a| + 16), a)
    requires o + 16 * |c| + 16 <= |s| && RsvEnc(Block(s, o, 16 * |c| + 16), c)
    ensures a == c
  {
    hide RsvEnc, Word64;
    var n := if |a| <= |c| then |a| else |c|;
    MapWords(s, o, a, n);
    MapWords(s, o, c, n);
    forall i | 0 <= i < n
      ensures a[i] == c[i]
    {
      MapWords(s, o, a, i);
      MapWords(s, o, c, i);
    }
  }

  /** A blob holds one view. */
  lemma ViewUnique(s: seq<byte>, v: View, w: View)
    requires Holds(s, v) && Holds(s, w)
    ensures v == w
  {
    hide Hdr, Encodes, RsvEnc, Resolvable;
    var h := Hdr(s);
    MapUnique(s, h.offRsvmap, v.rsv, w.rsv);
    TokensUnique(Block(s, h.offStruct, h.sizeStruct), v.Toks(), w.Toks());
    assert v.body == v.Toks()[..|v.body|] && w.body == w.Toks()[..|w.body|];
  }

  /** A blob decodes to at most one tree. */
  lemma BlobUnique(s: seq<byte>, v: View, t: Node, w: View, u: Node)
    requires Holds(s, v) && DecodesTo(v, t) && Holds(s, w) && DecodesTo(w, u)
    ensures v == w && t == u
  {
    hide Holds;
    ViewUnique(s, v, w);
    DecodeUnique(v, t, u);
  }
}
