/** SHA_CTX: streaming is the one-shot hash of everything fed in. */
module ShaContext {
  import opened Memory
  import opened BigEndian
  import opened Sha
  import opened ShaCode
  import opened ShaSchedule

  /** Bytes of a message that have gone through whole blocks. */
  function Whole(n: nat): (r: nat)
    ensures r <= n && r % 64 == 0
  {
    n - n % 64
  }

  /** The word view of 64 bytes, through the union. */
  method LoadWords(data: array<byte>, off: nat) returns (l: array<bv32>)
    requires off + 64 <= data.Length
    ensures fresh(l) && l.Length == 16 && l[..] == Words(data[off..off + 64])
  {
    hide Word;
    l := new bv32[16];
    ghost var s := data[off..off + 64];
    for i := 0 to 16
      invariant forall k | 0 <= k < i :: l[k] == Words(s)[k]
    {
      var p := off + 4 * i;
      assert s[4 * i] == data[p] && s[4 * i + 1] == data[p + 1];
      assert s[4 * i + 2] == data[p + 2] && s[4 * i + 3] == data[p + 3];
      l[i] := Word(data[p], data[p + 1], data[p + 2], data[p + 3]);
    }
  }

  method StoreWords(l: array<bv32>, data: array<byte>, off: nat)
    requires off + 64 <= data.Length && l.Length == 16
    modifies data
    ensures Words(data[off..off + 64]) == l[..]
    ensures forall k | 0 <= k < data.Length && !(off <= k < off + 64) :: data[k] == old(data[k])
  {
    hide Word, Byte;
    for i := 0 to 16
      invariant forall k | 0 <= k < data.Length && !(off <= k < off + 64) :: data[k] == old(data[k])
      invariant forall k | 0 <= k < i :: WordIn(data[..], off, k) == l[k]
    {
      var p, w := off + 4 * i, l[i];
      WordBytes(w);
      data[p], data[p + 1], data[p + 2], data[p + 3] := Byte(w, 24), Byte(w, 16), Byte(w, 8), Byte(w, 0);
    }
    assert forall k | 0 <= k < 16 :: Words(data[off..off + 64])[k] == WordIn(data[..], off, k);
  }

  function WordIn(s: seq<byte>, off: nat, k: nat): bv32
    requires off + 4 * k + 4 <= |s|
  {
    Word(s[off + 4 * k], s[off + 4 * k + 1], s[off + 4 * k + 2], s[off + 4 * k + 3])
  }

  class Context {
    var h: Vars
    var count0: int
    var count1: int
    const buffer: array<byte>
    ghost var msg: seq<byte>

    ghost predicate Valid()
      reads this, buffer
    {
      && buffer.Length == 64 && count0 == Low(|msg|) && count1 == High(|msg|)
      && h == Hash(H0, msg[..Whole(|msg|)])
      && buffer[..|msg| % 64] == msg[Whole(|msg|)..]
    }

    constructor ()
      ensures fresh(buffer) && buffer.Length == 64
    {
      buffer := new byte[64](_ => 0);
      h, count0, count1, msg := Vars(0, 0, 0, 0, 0), 0, 0, [];
    }

    /** SHA1_Init. */
    method Init()
      requires buffer.Length == 64
      modifies this
      ensures Valid() && msg == []
    {
      h := H0;
      count0, count1, msg := 0, 0, [];
      HashNil();
    }

    /** SHA1_Transform, which leaves the end of its schedule in place of the block. */
    method Transform(data: array<byte>, off: nat)
      requires off + 64 <= data.Length
      modifies this`h, data
      ensures h == Compress(old(h), Words(old(data[off..off + 64])))
      ensures Words(data[off..off + 64]) == LastWords(Words(old(data[off..off + 64])))
      ensures forall k | 0 <= k < data.Length && !(off <= k < off + 64) :: data[k] == old(data[k])
    {
      hide W, Run, Words, Add;
      ghost var m := Words(data[off..off + 64]);
      var l := LoadWords(data, off);
      var r := EightyRounds(l, m, h);
      h := Add(h, r);
      StoreWords(l, data, off);
      Leftover(l[..], m);
    }

    /** Copies into the buffer. */
    method Fill(at: nat, data: array<byte>, from: nat, n: nat)
      requires buffer.Length == 64 && at + n <= 64 && from + n <= data.Length && data != buffer
      modifies buffer
      ensures buffer[..at + n] == old(buffer[..at]) + data[from..from + n]
    {
      CopyTo(buffer, at, data[from..from + n]);
    }

    /** The blocks hashed straight from the caller's buffer. */
    method DirectBlocks(data: array<byte>, len: nat, from: nat, ghost m: seq<byte>, ghost base: nat) returns (i: nat)
      requires len <= data.Length && from <= len && base + len == |m| && (base + from) % 64 == 0
      requires h == Hash(H0, m[..base + from]) && forall k | from <= k < len :: data[k] == m[base + k]
      modifies this`h, data
      ensures from <= i <= len < i + 64 && (base + i) % 64 == 0 && h == Hash(H0, m[..base + i])
      ensures forall k | i <= k < data.Length :: data[k] == old(data[k])
      ensures Churned(old(data[..]), data[..], from, i)
    {
      hide Hash, Words, Compress, LastWords, Churned;
      i := from;
      NoChurn(data[..], from);
      while i + 63 < len
        invariant from <= i <= len && (base + i) % 64 == 0 && h == Hash(H0, m[..base + i])
        invariant forall k | i <= k < data.Length :: data[k] == old(data[k])
        invariant Churned(old(data[..]), data[..], from, i)
      {
        assert data[i..i + 64] == m[base + i..base + i + 64];
        ghost var was := data[..];
        assert data[i..i + 64] == was[i..i + 64] == old(data[..])[i..i + 64];
        Transform(data, i);
        assert data[i..i + 64] == data[..][i..i + 64];
        ChurnOn(old(data[..]), was, data[..], from, i);
        NextBlock(m, base + i);
        i := i + 64;
      }
    }

    /** The two-word bit counter. */
    method Count(len: nat)
      requires len < TWO32 && count0 == Low(|msg|) && count1 == High(|msg|)
      modifies this`count0, this`count1
      ensures count0 == Low(|msg| + len) && count1 == High(|msg| + len)
    {
      hide Low, High;
      CountAdds(|msg|, len);
      var bits := 8 * len % TWO32;
      count0 := (count0 + bits) % TWO32;
      ghost var carry := if count0 < bits then 1 else 0;
      CountRange(|msg|);
      ModAdds(count1 + carry, len / 0x2000_0000);
      if count0 < bits {
        count1 := (count1 + 1) % TWO32;
      }
      count1 := (count1 + len / 0x2000_0000) % TWO32;
    }

    /** SHA1_Update. The caller's bytes that go through whole blocks are overwritten. */
    method Update(data: array<byte>, len: nat)
      requires Valid() && len <= data.Length && len <= TWO32 - 64 && data != buffer
      modifies this, buffer, data
      ensures Valid() && msg == old(msg) + old(data[..len])
      ensures Consumed(old(data[..]), data[..], old(|msg|), len)
    {
      hide Hash, Low, High, Words, Compress, LastWords, Whole, Churned, Consumed;
      ghost var s, d, n := msg, data[..len], |msg|;
      Position(n);
      var j := count0 / 8 % 64;
      Count(len);
      var i := 0;
      NoChurn(data[..], 64 - j);
      if j + len > 63 {
        i := Absorb(data, len, j);
        WholeIs(i - (64 - n % 64), len - (64 - n % 64));
        j := 0;
      }
      Rest(s, d, i);
      assert data[i..i + (len - i)] == d[i..];
      WasConsumed(old(data[..]), data[..], n, len);
      Keep(data, len, i, j, s + d);
    }

    /** The bytes after the last whole block wait in the buffer. */
    method Keep(data: array<byte>, len: nat, i: nat, j: nat, ghost m: seq<byte>)
      requires buffer.Length == 64 && i <= len <= data.Length && data != buffer && j + (len - i) == |m| % 64
      requires count0 == Low(|m|) && count1 == High(|m|) && h == Hash(H0, m[..Whole(|m|)])
      requires buffer[..j] + data[i..len] == m[Whole(|m|)..]
      modifies this`msg, buffer
      ensures Valid() && msg == m
    {
      hide Hash, Low, High, Whole;
      Fill(j, data, i, len - i);
      msg := m;
    }

    /** Completes the buffered block, hashes it and the whole blocks that follow. */
    method Absorb(data: array<byte>, len: nat, j: nat) returns (i: nat)
      requires buffer.Length == 64 && h == Hash(H0, msg[..Whole(|msg|)]) && buffer[..|msg| % 64] == msg[Whole(|msg|)..]
      requires len <= data.Length && data != buffer && j == |msg| % 64 && j + len > 63
      modifies this`h, buffer, data
      ensures i <= len < i + 64 && (|msg| + i) % 64 == 0 && h == Hash(H0, (msg + old(data[..len]))[..|msg| + i])
      ensures forall k | i <= k < data.Length :: data[k] == old(data[k])
      ensures 64 - j <= i && (i - (64 - j)) % 64 == 0 && Churned(old(data[..]), data[..], 64 - j, i)
    {
      hide Hash, Whole, Churned;
      ghost var s, d := msg, data[..len];
      i := 64 - j;
      CompleteBlock(data, len, j);
      i := DirectBlocks(data, len, i, s + d, |s|);
    }

    method CompleteBlock(data: array<byte>, len: nat, j: nat)
      requires buffer.Length == 64 && h == Hash(H0, msg[..Whole(|msg|)]) && buffer[..|msg| % 64] == msg[Whole(|msg|)..]
      requires len <= data.Length && data != buffer && j == |msg| % 64 && j + len > 63
      modifies this`h, buffer
      ensures (|msg| + 64 - j) % 64 == 0 && h == Hash(H0, (msg + data[..len])[..|msg| + 64 - j])
    {
      hide Hash, Words, Compress, LastWords, Whole;
      ghost var d := data[..len];
      var i := 64 - j;
      Fill(j, data, 0, i);
      assert data[0..0 + i] == d[..i];
      assert buffer[0..64] == buffer[..j + i] == msg[Whole(|msg|)..] + d[..i];
      FirstBlock(msg, d, i);
      Transform(buffer, 0);
    }

    // ----- SHA1_Final

    /** Feeds one byte. */
    method UpdateByte(x: byte)
      requires Valid()
      modifies this, buffer
      ensures Valid() && msg == old(msg) + [x]
    {
      var one := new byte[1](_ => x);
      Update(one, 1);
    }

    /** The eight bytes of the bit count, most significant first. */
    method FinalCount() returns (c: array<byte>)
      requires count0 == Low(|msg|) && count1 == High(|msg|)
      ensures fresh(c) && c.Length == 8 && c[..] == Len8(8 * |msg|)
    {
      hide Low, High, ByteOf, Shifted;
      c := new byte[8];
      for i := 0 to 8
        invariant forall k | 0 <= k < i :: c[k] == ByteOf(8 * |msg|, 7 - k)
      {
        CountByte(|msg|, i);
        c[i] := Shifted(if i >= 4 then count0 else count1, 3 - i % 4);
      }
    }

    /** Zero bytes until eight are left in the block. */
    method ZeroFill(ghost s: seq<byte>)
      requires Valid() && msg == s + [0x80]
      modifies this, buffer
      ensures Valid() && msg == s + [0x80] + Zeros(PadZeros(|s|))
    {
      hide Hash, Low, High, Whole, Zeros;
      ghost var z := 0;
      ZerosNil();
      while count0 / 8 % 64 != 56
        invariant Valid() && msg == s + [0x80] + Zeros(z) && z <= PadZeros(|s|)
        decreases PadZeros(|s|) - z
      {
        Position(|msg|);
        MorePad(|s|, z);
        ZerosNext(z);
        UpdateByte(0);
        z := z + 1;
      }
      Position(|msg|);
      EnoughPad(|s|, z);
    }

    /** The padding of section 5.1.1 of FIPS 180-4, fed in like any other bytes. */
    method PadOut()
      requires Valid()
      modifies this, buffer
      ensures h == Hash(H0, Pad(old(msg)))
    {
      hide Hash, Low, High, Whole, Len8, Zeros, Pad;
      ghost var s := msg;
      var finalcount := FinalCount();
      UpdateByte(0x80);
      ZeroFill(s);
      assert finalcount[..8] == finalcount[..];
      Update(finalcount, 8);
      Padded(s, PadZeros(|s|), msg);
      assert msg[..|msg|] == msg;
    }

    /** SHA1_Final: the digest of everything fed in; the context is wiped. */
    method Final() returns (digest: seq<byte>)
      requires Valid()
      modifies this, buffer
      ensures digest == Sha1(old(msg))
      ensures buffer[..] == Zeros(64) && h == Vars(0, 0, 0, 0, 0) && count0 == count1 == 0
    {
      hide Hash, Low, High, Whole, Zeros, Digest, Pad;
      PadOut();
      digest := Digest(h);
      h, count0, count1 := Vars(0, 0, 0, 0, 0), 0, 0;
      Wipe();
    }

    method Wipe()
      requires buffer.Length == 64
      modifies buffer
      ensures buffer[..] == Zeros(64)
    {
      for i := 0 to 64
        invariant forall k | 0 <= k < i :: buffer[k] == 0
      {
        buffer[i] := 0;
      }
    }
  }

  function PadZeros(n: nat): nat {
    (119 - n % 64) % 64
  }

  lemma MorePad(n: nat, z: nat)
    requires z <= PadZeros(n) && (n + 1 + z) % 64 != 56
    ensures z < PadZeros(n)
  {
  }

  lemma EnoughPad(n: nat, z: nat)
    requires z <= PadZeros(n) && (n + 1 + z) % 64 == 56
    ensures z == PadZeros(n)
  {
  }

  lemma ZerosNil()
    ensures Zeros(0) == []
  {
  }

  lemma ZerosNext(z: nat)
    ensures Zeros(z + 1) == Zeros(z) + [0]
  {
  }

  lemma Padded(s: seq<byte>, z: nat, m: seq<byte>)
    requires z == PadZeros(|s|) && m == s + [0x80] + Zeros(z) + Len8(8 * |s|)
    ensures m == Pad(s) && Whole(|m|) == |m|
  {
  }

  /** A byte of a 32-bit count. */
  function Shifted(c: int, i: nat): byte
    requires 0 <= c
  {
    (c / Pow256(i) % 256) as bv8
  }

  /** The bytes of the two counter words are those of the bit count. */
  lemma CountByte(n: nat, i: nat)
    requires i < 8
    ensures Low(n) >= 0 && High(n) >= 0
    ensures Shifted(if i >= 4 then Low(n) else High(n), 3 - i % 4) == ByteOf(8 * n, 7 - i)
  {
    hide Pow256;
    var x := 8 * n;
    if i >= 4 {
      LowByte(x, 7 - i);
    } else {
      LowByte(x / TWO32, 3 - i);
      HighByte(x, 3 - i);
    }
  }

  lemma Powers()
    ensures Pow256(0) == 1 && Pow256(1) == 0x100 && Pow256(2) == 0x1_0000 && Pow256(3) == 0x100_0000
    ensures Pow256(4) == TWO32 && Pow256(5) == TWO32 * 0x100 && Pow256(6) == TWO32 * 0x1_0000
    ensures Pow256(7) == TWO32 * 0x100_0000
  {
    assert Pow256(2) == 256 * Pow256(1);
    assert Pow256(4) == 256 * Pow256(3);
    assert Pow256(6) == 256 * Pow256(5);
  }

  /** Dividing `256 * p * q + r` by `p`, to the byte. */
  lemma ByteShift(q: nat, r: nat, p: nat, c: nat)
    requires p > 0
    ensures (256 * c * p * q + r) / p % 256 == r / p % 256
  {
    var x, d, e := 256 * c * p * q + r, r / p, r % p;
    Factor(p, c, q, d, e, r);
    QuotientIs(x, p, 256 * (c * q) + d, e);
    Mod256(c * q, d);
  }

  lemma Factor(p: nat, c: nat, q: nat, d: nat, e: nat, r: nat)
    requires r == p * d + e
    ensures 256 * c * p * q + r == p * (256 * (c * q) + d) + e
  {
    assert 256 * c * p * q == p * (256 * (c * q));
  }

  lemma QuotientIs(x: nat, p: nat, a: nat, e: nat)
    requires p > 0 && x == p * a + e && e < p
    ensures x / p == a
  {
    var b := x / p;
    assert x == p * b + x % p;
    Unique(p, a, e, b, x % p);
  }

  lemma Unique(p: nat, a: nat, e: nat, b: nat, f: nat)
    requires p * a + e == p * b + f && e < p && f < p
    ensures a == b
  {
    if a < b {
      MulGap(p, a, b);
    } else if b < a {
      MulGap(p, b, a);
    }
  }

  lemma MulGap(p: nat, a: nat, b: nat)
    requires a < b
    ensures p * a + p <= p * b
  {
    var d := b - a - 1;
    assert p * b == p * (a + 1 + d) == p * a + p + p * d;
  }

  lemma Mod256(c: nat, d: nat)
    ensures (256 * c + d) % 256 == d % 256
  {
  }

  lemma LowByte(x: nat, k: nat)
    requires k < 4
    ensures x % TWO32 / Pow256(k) % 256 == x / Pow256(k) % 256
  {
    hide Pow256;
    Powers();
    var q, r := x / TWO32, x % TWO32;
    assert x == TWO32 * q + r;
    ByteShift(q, r, Pow256(k), if k == 0 then 0x100_0000 else if k == 1 then 0x1_0000 else if k == 2 then 0x100 else 1);
  }

  lemma HighByte(x: nat, k: nat)
    requires k < 4
    ensures x / TWO32 / Pow256(k) == x / Pow256(4 + k)
  {
    hide Pow256;
    Powers();
    var p := Pow256(k);
    var q := x / TWO32 / p;
    var e := x / TWO32 % p * TWO32 + x % TWO32;
    assert x == TWO32 * (x / TWO32) + x % TWO32 && x / TWO32 == p * q + x / TWO32 % p;
    assert Pow256(4 + k) == TWO32 * p;
    QuotientIs(x, TWO32 * p, q, e);
  }

  lemma CountRange(n: nat)
    ensures 0 <= Low(n) < TWO32 && 0 <= High(n) < TWO32
  {
  }

  lemma Position(n: nat)
    ensures Low(n) / 8 % 64 == n % 64
  {
    var q := 8 * n / TWO32;
    assert 8 * n == TWO32 * q + Low(n);
    assert n == 0x2000_0000 * q + Low(n) / 8;
  }

  lemma NextBlock(m: seq<byte>, k: nat)
    requires k % 64 == 0 && k + 64 <= |m|
    ensures Hash(H0, m[..k + 64]) == Compress(Hash(H0, m[..k]), Words(m[k..k + 64]))
  {
    hide Compress, Words;
    var s := m[..k + 64];
    assert s[..|s| - 64] == m[..k] && s[|s| - 64..] == m[k..k + 64];
  }

  lemma FirstBlock(s: seq<byte>, d: seq<byte>, i: nat)
    requires i == 64 - |s| % 64 && i <= |d|
    ensures (|s| + i) % 64 == 0
    ensures Hash(H0, (s + d)[..|s| + i]) == Compress(Hash(H0, s[..Whole(|s|)]), Words(s[Whole(|s|)..] + d[..i]))
  {
    hide Hash, Compress, Words;
    var m, k := s + d, Whole(|s|);
    NextBlock(m, k);
    assert m[..k] == s[..k] && m[k..k + 64] == s[k..] + d[..i];
  }

  /** Where the buffered tail starts after an update. */
  lemma Rest(s: seq<byte>, d: seq<byte>, i: nat)
    requires i <= |d| && (if |s| % 64 + |d| > 63 then (|s| + i) % 64 == 0 && |d| - i < 64 else i == 0)
    ensures var m, n := s + d, |s| + |d|;
      if |s| % 64 + |d| > 63 then Whole(n) == |s| + i && n % 64 == |d| - i && m[Whole(n)..] == d[i..]
      else
        && Whole(n) == Whole(|s|) && n % 64 == |s| % 64 + |d|
        && m[Whole(n)..] == s[Whole(|s|)..] + d && m[..Whole(n)] == s[..Whole(|s|)]
  {
    RestAt(|s|, |d|, i);
    hide Whole;
    var m, w := s + d, Whole(|s|);
    if |s| % 64 + |d| > 63 {
      assert m[|s| + i..] == d[i..];
    } else {
      assert m[w..] == s[w..] + d && m[..w] == s[..w];
    }
  }

  lemma RestAt(n: nat, len: nat, i: nat)
    requires i <= len && (if n % 64 + len > 63 then (n + i) % 64 == 0 && len - i < 64 else i == 0)
    ensures if n % 64 + len > 63 then Whole(n + len) == n + i && (n + len) % 64 == len - i
            else Whole(n + len) == Whole(n) && (n + len) % 64 == n % 64 + len
  {
  }

  lemma Leftover(l: seq<bv32>, m: seq<bv32>)
    requires |m| == 16 && Holds(l, m, 80)
    ensures l == LastWords(m)
  {
    forall k: nat | k < 16
      ensures l[k] == LastWords(m)[k]
    {
      HoldsAt(l, m, 80, 64 + k);
    }
  }

  // ----- What becomes of the caller's bytes

  /** The block at `p` holds the end of its own schedule. */
  ghost predicate Spent(a: seq<byte>, b: seq<byte>, p: nat) {
    p + 64 <= |a| == |b| && Words(b[p..p + 64]) == LastWords(Words(a[p..p + 64]))
  }

  /** The blocks from `from` on are spent; nothing outside of `from` to `to` has changed. */
  ghost predicate Churned(a: seq<byte>, b: seq<byte>, from: nat, to: nat) {
    && |a| == |b| && (forall k | 0 <= k < |a| && !(from <= k < to) :: b[k] == a[k])
    && forall p: nat | from <= p < to && (p - from) % 64 == 0 :: Spent(a, b, p)
  }

  lemma NoChurn(a: seq<byte>, from: nat)
    ensures Churned(a, a, from, from)
  {
  }

  lemma ChurnOn(a: seq<byte>, b: seq<byte>, c: seq<byte>, from: nat, to: nat)
    requires Churned(a, b, from, to) && from <= to && to + 64 <= |a| == |c| && (to - from) % 64 == 0
    requires forall k | 0 <= k < |c| && !(to <= k < to + 64) :: c[k] == b[k]
    requires Words(c[to..to + 64]) == LastWords(Words(a[to..to + 64]))
    ensures Churned(a, c, from, to + 64)
  {
    hide Words, LastWords;
    forall p: nat | from <= p < to + 64 && (p - from) % 64 == 0
      ensures Spent(a, c, p)
    {
      if p < to {
        BlockBefore(p - from, to - from);
        assert Spent(a, b, p);
        assert c[p..p + 64] == b[p..p + 64];
      } else {
        BlockBefore(to - from, p - from);
      }
    }
  }

  lemma BlockBefore(x: nat, y: nat)
    requires x % 64 == 0 && y % 64 == 0
    ensures x < y ==> x + 64 <= y
  {
  }

  lemma WholeIs(x: nat, n: nat)
    requires x % 64 == 0 && x <= n < x + 64
    ensures x == Whole(n)
  {
  }

  lemma WordsInjective(s: seq<byte>, t: seq<byte>)
    requires |s| == |t| == 64 && Words(s) == Words(t)
    ensures s == t
  {
    hide Word, Byte;
    forall k | 0 <= k < 64
      ensures s[k] == t[k]
    {
      var i := k / 4;
      assert Words(s)[i] == Words(t)[i];
      BytesWord(s[4 * i], s[4 * i + 1], s[4 * i + 2], s[4 * i + 3]);
      BytesWord(t[4 * i], t[4 * i + 1], t[4 * i + 2], t[4 * i + 3]);
      assert k == 4 * i || k == 4 * i + 1 || k == 4 * i + 2 || k == 4 * i + 3;
    }
  }

  /** The caller gets the data back as they were exactly when every block hashed in place
      is all zeros. */
  lemma Intact(a: seq<byte>, b: seq<byte>, from: nat, to: nat)
    requires Churned(a, b, from, to) && from <= to && (to - from) % 64 == 0
    ensures b == a <==> forall k | from <= k < to && k < |a| :: a[k] == 0
  {
    hide Words, LastWords, Zeros;
    forall p: nat | from <= p < to && (p - from) % 64 == 0
      ensures Lasting(a, b, p)
    {
      assert Spent(a, b, p);
      BlockIntact(a[p..p + 64], b[p..p + 64]);
    }
    IntactBytes(a, b, from, to);
  }

  ghost predicate Lasting(a: seq<byte>, b: seq<byte>, p: nat) {
    p + 64 <= |a| == |b| && (b[p..p + 64] == a[p..p + 64] <==> a[p..p + 64] == Zeros(64))
  }

  /** What an update of `len` bytes after `n` others does to the caller's data: the blocks
      behind the one it completes are spent, and nothing has changed exactly when all of
      those bytes are zero. */
  ghost predicate Consumed(a: seq<byte>, b: seq<byte>, n: nat, len: nat) {
    var from := 64 - n % 64;
    var to := DirectEnd(n, len);
    && Churned(a, b, from, to)
    && (b == a <==> forall k | from <= k < to && k < |a| :: a[k] == 0)
  }

  function DirectEnd(n: nat, len: nat): (r: nat)
    ensures 64 - n % 64 <= r && (r - (64 - n % 64)) % 64 == 0
  {
    var from := 64 - n % 64;
    if len < from then from else from + Whole(len - from)
  }

  lemma WasConsumed(a: seq<byte>, b: seq<byte>, n: nat, len: nat)
    requires Churned(a, b, 64 - n % 64, DirectEnd(n, len))
    ensures Consumed(a, b, n, len)
  {
    hide Churned, Whole;
    Intact(a, b, 64 - n % 64, DirectEnd(n, len));
  }

  lemma IntactBytes(a: seq<byte>, b: seq<byte>, from: nat, to: nat)
    requires |a| == |b| && (forall k | 0 <= k < |a| && !(from <= k < to) :: b[k] == a[k])
    requires from <= to && (to - from) % 64 == 0
    requires forall p: nat | from <= p < to && (p - from) % 64 == 0 :: Lasting(a, b, p)
    ensures b == a <==> forall k | from <= k < to && k < |a| :: a[k] == 0
  {
    ghost var zero := forall k | from <= k < to && k < |a| :: a[k] == 0;
    forall k | from <= k < to && k < |a|
      ensures b == a ==> a[k] == 0
      ensures zero ==> b[k] == a[k]
    {
      var p := k - (k - from) % 64;
      BlockAt(k - from);
      BlockBefore(p - from, to - from);
      assert Lasting(a, b, p);
      LastingByte(a, b, p, k);
    }
  }

  lemma BlockAt(x: nat)
    ensures (x - x % 64) % 64 == 0 && x - x % 64 <= x < x - x % 64 + 64
  {
  }

  lemma LastingByte(a: seq<byte>, b: seq<byte>, p: nat, k: nat)
    requires Lasting(a, b, p) && p <= k < p + 64
    ensures p + 64 <= |a|
    ensures b == a ==> a[k] == 0
    ensures (forall i | p <= i < p + 64 :: a[i] == 0) ==> b[k] == a[k]
  {
    assert a[k] == a[p..p + 64][k - p] && b[k] == b[p..p + 64][k - p];
    if forall i | p <= i < p + 64 :: a[i] == 0 {
      assert a[p..p + 64] == Zeros(64);
    }
  }

  lemma BlockIntact(s: seq<byte>, r: seq<byte>)
    requires |s| == |r| == 64 && Words(r) == LastWords(Words(s))
    ensures r == s <==> s == Zeros(64)
  {
    hide Words, LastWords;
    OnlyZeros(Words(s));
    ZeroWords(s);
    if LastWords(Words(s)) == Words(s) {
      WordsInjective(r, s);
    }
  }

  lemma ZeroWords(s: seq<byte>)
    requires |s| == 64
    ensures s == Zeros(64) <==> forall k | 0 <= k < 16 :: Words(s)[k] == 0
  {
    var z := Zeros(64);
    forall k | 0 <= k < 16
      ensures Words(z)[k] == 0
    {
      assert Words(z)[k] == Word(z[4 * k], z[4 * k + 1], z[4 * k + 2], z[4 * k + 3]) == Word(0, 0, 0, 0);
    }
    if forall k | 0 <= k < 16 :: Words(s)[k] == 0 {
      assert Words(s) == Words(z);
      WordsInjective(s, z);
    }
  }

  /** Two blocks fed into a fresh context: the second is lost when its last byte is 1. */
  lemma SecondBlockLost(a: seq<byte>, b: seq<byte>)
    requires |a| == 128 && a[127] == 1 && Consumed(a, b, 0, 128)
    ensures b[..64] == a[..64] && b[64..] != a[64..]
  {
    assert DirectEnd(0, 128) == 128;
    assert b != a && a == a[..64] + a[64..] && b == b[..64] + b[64..];
  }

  lemma HashNil()
    ensures Hash(H0, [][..Whole(0)]) == H0
  {
  }
}
