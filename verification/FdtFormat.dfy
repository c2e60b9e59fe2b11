/** The three data blocks of a version 17 blob: the structure block as a stream
    of self-delimiting tokens, the strings block, and the memory reserve map. */
module FdtFormat {
  import opened Memory
  import opened FdtBytes
  import opened FdtTree

  const FDT_BEGIN_NODE: int := 1
  const FDT_END_NODE: int := 2
  const FDT_PROP: int := 3
  const FDT_NOP: int := 4
  const FDT_END: int := 9

  datatype Token = Begin(name: Name) | EndNode | Prop(nameoff: u32, value: seq<byte>) | Nop | End

  function TagOf(t: Token): u32 {
    match t
    case Begin(_) => FDT_BEGIN_NODE
    case EndNode => FDT_END_NODE
    case Prop(_, _) => FDT_PROP
    case Nop => FDT_NOP
    case End => FDT_END
  }

  /** Bytes taken by a token, padding included. */
  function TokLen(t: Token): (r: nat)
    ensures r >= 4 && r % 4 == 0
  {
    match t
    case Begin(name) => 4 + Align4(|name| + 1)
    case Prop(_, value) => 12 + Align4(|value|)
    case _ => 4
  }

  /** `b` is an encoding of `t`; the padding bytes are unconstrained. */
  ghost predicate TokEnc(b: seq<byte>, t: Token) {
    && |b| == TokLen(t)
    && Word(b, 0) == TagOf(t)
    && match t
       case Begin(name) => 0 !in name && b[4..4 + |name|] == name && b[4 + |name|] == 0
       case Prop(nameoff, value) => Word(b, 4) == |value| && Word(b, 8) == nameoff && b[12..12 + |value|] == value
       case _ => true
  }

  function Size(ts: seq<Token>): nat {
    if ts == [] then 0 else Size(ts[..|ts| - 1]) + TokLen(ts[|ts| - 1])
  }

  ghost predicate Encodes(s: seq<byte>, ts: seq<Token>) {
    if ts == [] then s == []
    else
      var n := |ts| - 1;
      var m := |s| - TokLen(ts[n]);
      m >= 0 && TokEnc(s[m..], ts[n]) && Encodes(s[..m], ts[..n])
  }

  lemma {:induction false} SizeConcat(a: seq<Token>, b: seq<Token>)
    ensures Size(a + b) == Size(a) + Size(b)
  {
    if b == [] {
      assert a + b == a;
    } else {
      var n := |b| - 1;
      SizeConcat(a, b[..n]);
      assert (a + b)[..|a + b| - 1] == a + b[..n];
    }
  }

  lemma SizeSplit(ts: seq<Token>, k: nat)
    requires k <= |ts|
    ensures Size(ts) == Size(ts[..k]) + Size(ts[k..])
  {
    assert ts == ts[..k] + ts[k..];
    SizeConcat(ts[..k], ts[k..]);
  }

  lemma SizeOne(t: Token)
    ensures Size([t]) == TokLen(t)
  {
    assert [t][..0] == [];
    assert Size([]) == 0;
  }

  lemma SizeStep(ts: seq<Token>, k: nat)
    requires k < |ts|
    ensures Size(ts[..k + 1]) == Size(ts[..k]) + TokLen(ts[k])
    ensures Size(ts[..k + 1]) <= Size(ts)
  {
    assert ts[..k + 1][..k] == ts[..k];
    SizeSplit(ts, k + 1);
  }

  lemma {:induction false} SizeAligned(ts: seq<Token>)
    ensures Size(ts) % 4 == 0
  {
    if ts != [] {
      SizeAligned(ts[..|ts| - 1]);
    }
  }

  lemma SizeMonotone(ts: seq<Token>, j: nat, k: nat)
    requires j <= k <= |ts|
    ensures Size(ts[..j]) + 4 * (k - j) <= Size(ts[..k]) <= Size(ts)
  {
    SizeAtLeast(ts[j..k]);
    assert ts[..k] == ts[..j] + ts[j..k];
    SizeConcat(ts[..j], ts[j..k]);
    SizeSplit(ts, k);
  }

  lemma {:induction false} SizeAtLeast(ts: seq<Token>)
    ensures Size(ts) >= 4 * |ts|
  {
    if ts != [] {
      SizeAtLeast(ts[..|ts| - 1]);
    }
  }

  lemma {:induction false} EncodesSize(s: seq<byte>, ts: seq<Token>)
    requires Encodes(s, ts)
    ensures |s| == Size(ts)
  {
    hide TokEnc, TokLen;
    if ts != [] {
      var m := |s| - TokLen(ts[|ts| - 1]);
      EncodesSize(s[..m], ts[..|ts| - 1]);
    }
  }

  /** Encodings concatenate. */
  lemma {:induction false} EncodesConcat(s1: seq<byte>, t1: seq<Token>, s2: seq<byte>, t2: seq<Token>)
    requires Encodes(s1, t1) && Encodes(s2, t2)
    ensures Encodes(s1 + s2, t1 + t2)
  {
    hide TokEnc, TokLen;
    if t2 == [] {
      assert s1 + s2 == s1 && t1 + t2 == t1;
    } else {
      var n := |t2| - 1;
      var m := |s2| - TokLen(t2[n]);
      EncodesConcat(s1, t1, s2[..m], t2[..n]);
      assert (t1 + t2)[..|t1 + t2| - 1] == t1 + t2[..n];
      assert (s1 + s2)[|s1| + m..] == s2[m..];
      assert (s1 + s2)[..|s1| + m] == s1 + s2[..m];
    }
  }

  lemma EncodesSnoc(s: seq<byte>, ts: seq<Token>, b: seq<byte>, t: Token)
    requires Encodes(s, ts) && TokEnc(b, t)
    ensures Encodes(s + b, ts + [t])
  {
    assert (s + b)[|s|..] == b && (s + b)[..|s|] == s;
    assert (ts + [t])[..|ts|] == ts;
  }

  /** Encodings split at token boundaries. */
  lemma EncodesSplit(s: seq<byte>, ts: seq<Token>, k: nat)
    requires Encodes(s, ts) && k <= |ts|
    ensures Size(ts[..k]) <= |s| == Size(ts)
    ensures Encodes(s[..Size(ts[..k])], ts[..k]) && Encodes(s[Size(ts[..k])..], ts[k..])
  {
    hide TokEnc, TokLen, Encodes;
    EncodesSize(s, ts);
    SizeSplit(ts, k);
    EncodesPrefix(s, ts, k);
    var z := Size(ts[..k]);
    assert s == s[..z] + s[z..] && ts == ts[..k] + ts[k..];
    EncodesSuffix(s[..z], ts[..k], s[z..], ts[k..]);
  }

  lemma {:induction false} EncodesPrefix(s: seq<byte>, ts: seq<Token>, k: nat)
    requires Encodes(s, ts) && k <= |ts|
    ensures Size(ts[..k]) <= |s|
    ensures Encodes(s[..Size(ts[..k])], ts[..k])
  {
    hide TokEnc, TokLen;
    if k == |ts| {
      EncodesSize(s, ts);
      assert ts[..k] == ts && s[..|s|] == s;
    } else {
      var n := |ts| - 1;
      var m := |s| - TokLen(ts[n]);
      EncodesPrefix(s[..m], ts[..n], k);
      assert ts[..n][..k] == ts[..k];
      assert s[..m][..Size(ts[..k])] == s[..Size(ts[..k])];
    }
  }

  lemma {:induction false} EncodesSuffix(s1: seq<byte>, t1: seq<Token>, s2: seq<byte>, t2: seq<Token>)
    requires Encodes(s1 + s2, t1 + t2) && |s1| == Size(t1)
    ensures Encodes(s2, t2)
  {
    hide TokEnc, TokLen;
    EncodesSize(s1 + s2, t1 + t2);
    SizeConcat(t1, t2);
    if t2 != [] {
      var n := |t2| - 1;
      var m := |s2| - TokLen(t2[n]);
      var ts, s := t1 + t2, s1 + s2;
      assert ts[..|ts| - 1] == t1 + t2[..n] && ts[|ts| - 1] == t2[n];
      assert s[..|s1| + m] == s1 + s2[..m] && s[|s1| + m..] == s2[m..];
      EncodesSuffix(s1, t1, s2[..m], t2[..n]);
    }
  }

  lemma EncodesOne(b: seq<byte>, t: Token)
    requires TokEnc(b, t)
    ensures Encodes(b, [t])
  {
    assert b[0..] == b && b[..0] == [] && [t][..0] == [];
    assert Encodes(b[..0], [t][..0]);
  }

  /** Token `k` lies exactly between the sizes of the prefixes around it. */
  lemma TokenAt(s: seq<byte>, ts: seq<Token>, k: nat)
    requires Encodes(s, ts) && k < |ts|
    ensures Size(ts[..k]) + TokLen(ts[k]) == Size(ts[..k + 1]) <= |s| == Size(ts)
    ensures TokEnc(s[Size(ts[..k])..Size(ts[..k + 1])], ts[k])
  {
    EncodesSplit(s, ts, k + 1);
    SizeStep(ts, k);
    var z, y := Size(ts[..k]), Size(ts[..k + 1]);
    assert s[..y][z..] == s[z..y];
    assert ts[..k + 1][k] == ts[k];
  }

  /** Replacing the tokens from `i` to `j` replaces exactly their bytes. */
  lemma EncodesSplice(s: seq<byte>, ts: seq<Token>, i: nat, j: nat, b: seq<byte>, us: seq<Token>)
    requires Encodes(s, ts) && i <= j <= |ts| && Encodes(b, us)
    ensures Size(ts[..i]) <= Size(ts[..j]) <= |s|
    ensures Encodes(s[..Size(ts[..i])] + b + s[Size(ts[..j])..], ts[..i] + us + ts[j..])
  {
    hide TokEnc, TokLen, Encodes;
    SizeMonotone(ts, i, j);
    EncodesSplit(s, ts, i);
    EncodesSplit(s, ts, j);
    EncodesConcat(s[..Size(ts[..i])], ts[..i], b, us);
    EncodesConcat(s[..Size(ts[..i])] + b, ts[..i] + us, s[Size(ts[..j])..], ts[j..]);
  }

  // ----- Strings block

  /** Some NUL lies at or after `off`. */
  ghost predicate Terminated(strs: seq<byte>, off: nat) {
    exists k :: off <= k < |strs| && strs[k] == 0
  }

  /** The C string `name` is stored at `off`. */
  ghost predicate IsStr(strs: seq<byte>, off: nat, name: Name) {
    && off + |name| < |strs|
    && strs[off..off + |name|] == name
    && strs[off + |name|] == 0
    && 0 !in name
  }

  ghost function StrAt(strs: seq<byte>, off: nat): (name: Name)
    requires Terminated(strs, off)
    ensures IsStr(strs, off, name)
    decreases |strs| - off
  {
    if strs[off] == 0 then []
    else
      var r := StrAt(strs, off + 1);
      assert strs[off..off + 1 + |r|] == [strs[off]] + r;
      [strs[off]] + r
  }

  lemma StrUnique(strs: seq<byte>, off: nat, a: Name, b: Name)
    requires IsStr(strs, off, a) && IsStr(strs, off, b)
    ensures a == b
  {
    StrChars(strs, off, a);
    StrChars(strs, off, b);
    assert strs[off + |a|] == 0 && strs[off + |b|] == 0;
    assert |a| == |b|;
  }

  lemma StrChars(strs: seq<byte>, off: nat, a: Name)
    requires IsStr(strs, off, a)
    ensures forall j | off <= j < off + |a| :: strs[j] != 0
  {
    forall j | off <= j < off + |a|
      ensures strs[j] != 0
    {
      assert strs[j] == strs[off..off + |a|][j - off] == a[j - off];
    }
  }

  ghost function NameAt(strs: seq<byte>, off: nat): Name {
    if Terminated(strs, off) then StrAt(strs, off) else []
  }

  lemma NameIs(strs: seq<byte>, off: nat, name: Name)
    requires IsStr(strs, off, name)
    ensures Terminated(strs, off) && NameAt(strs, off) == name
  {
    assert strs[off + |name|] == 0;
    StrUnique(strs, off, name, StrAt(strs, off));
  }

  /** Strings stay readable when the block is extended at its end ... */
  lemma NameAppend(strs: seq<byte>, off: nat, more: seq<byte>)
    requires Terminated(strs, off)
    ensures Terminated(strs + more, off) && NameAt(strs + more, off) == NameAt(strs, off)
  {
    var n := StrAt(strs, off);
    assert (strs + more)[off..off + |n|] == strs[off..off + |n|];
    NameIs(strs + more, off, n);
  }

  /** ... or at its beginning. */
  lemma NamePrepend(more: seq<byte>, strs: seq<byte>, off: nat)
    requires Terminated(strs, off)
    ensures Terminated(more + strs, |more| + off) && NameAt(more + strs, |more| + off) == NameAt(strs, off)
  {
    var n := StrAt(strs, off);
    assert (more + strs)[|more| + off..|more| + off + |n|] == strs[off..off + |n|];
    NameIs(more + strs, |more| + off, n);
  }

  // ----- From tokens to events

  ghost function EventOf(t: Token, strs: seq<byte>): seq<Event> {
    match t
    case Begin(name) => [EBegin(name)]
    case Prop(nameoff, value) => [EProp(NameAt(strs, nameoff), value)]
    case EndNode => [EEnd]
    case _ => []
  }

  ghost function Events(ts: seq<Token>, strs: seq<byte>): seq<Event> {
    if ts == [] then [] else Events(ts[..|ts| - 1], strs) + EventOf(ts[|ts| - 1], strs)
  }

  lemma {:induction false} EventsConcat(a: seq<Token>, b: seq<Token>, strs: seq<byte>)
    ensures Events(a + b, strs) == Events(a, strs) + Events(b, strs)
  {
    if b == [] {
      assert a + b == a;
    } else {
      var n := |b| - 1;
      EventsConcat(a, b[..n], strs);
      assert (a + b)[..|a + b| - 1] == a + b[..n];
      Assoc(Events(a, strs), Events(b[..n], strs), EventOf(b[n], strs));
    }
  }

  lemma EventsOne(t: Token, strs: seq<byte>)
    ensures Events([t], strs) == EventOf(t, strs)
  {
    assert [t][..0] == [];
    assert Events([], strs) == [];
  }

  lemma EventsStep(ts: seq<Token>, k: nat, strs: seq<byte>)
    requires k < |ts|
    ensures Events(ts[..k + 1], strs) == Events(ts[..k], strs) + EventOf(ts[k], strs)
    ensures Events(ts, strs) == Events(ts[..k + 1], strs) + Events(ts[k + 1..], strs)
  {
    assert ts[..k + 1][..k] == ts[..k];
    assert ts == ts[..k + 1] + ts[k + 1..];
    EventsConcat(ts[..k + 1], ts[k + 1..], strs);
  }

  ghost predicate Resolvable(ts: seq<Token>, strs: seq<byte>) {
    forall i | 0 <= i < |ts| && ts[i].Prop? :: Terminated(strs, ts[i].nameoff)
  }

  lemma {:induction false} EventsAppendStrings(ts: seq<Token>, strs: seq<byte>, more: seq<byte>)
    requires Resolvable(ts, strs)
    ensures Resolvable(ts, strs + more) && Events(ts, strs + more) == Events(ts, strs)
  {
    hide Terminated, NameAt;
    if ts != [] {
      var n := |ts| - 1;
      EventsAppendStrings(ts[..n], strs, more);
      if ts[n].Prop? {
        NameAppend(strs, ts[n].nameoff, more);
      }
      forall i | 0 <= i < |ts| && ts[i].Prop?
        ensures Terminated(strs + more, ts[i].nameoff)
      {
        assert i < n ==> ts[..n][i] == ts[i];
      }
    }
  }

  // ----- Memory reserve map

  datatype Reserve = Reserve(address: u64, size: u64)

  /** `b` holds the entries of `rsv` and a terminator of size zero. */
  ghost predicate RsvEnc(b: seq<byte>, rsv: seq<Reserve>) {
    && |b| == 16 * |rsv| + 16
    && (forall i | 0 <= i < |rsv| :: EntryAt(b, 16 * i, rsv[i]) && rsv[i].size != 0)
    && Word64(b, 16 * |rsv| + 8) == 0
  }

  ghost predicate EntryAt(b: seq<byte>, i: nat, r: Reserve) {
    i + 16 <= |b| && Word64(b, i) == r.address && Word64(b, i + 8) == r.size
  }

  lemma Word64Slice(s: seq<byte>, i: nat, t: seq<byte>, j: nat)
    requires i + 8 <= |s| && j + 8 <= |t|
    requires s[i..i + 8] == t[j..j + 8]
    ensures Word64(s, i) == Word64(t, j)
  {
    assert s[i..i + 4] == s[i..i + 8][..4] && t[j..j + 4] == t[j..j + 8][..4];
    assert s[i + 4..i + 8] == s[i..i + 8][4..] && t[j + 4..j + 8] == t[j..j + 8][4..];
    WordSlice(s, i, t, j);
    WordSlice(s, i + 4, t, j + 4);
  }
}
