/** Bytes, big-endian words and the memory primitives (memmove, memcpy, word
    stores) that libfdt applies to a blob held in one flat buffer. */
module FdtBytes {
  import opened Memory

  type byte = x: int | 0 <= x < 0x100
  type u64 = x: int | 0 <= x < 0x1_0000_0000_0000_0000

  const TWO31: int := 0x8000_0000

  /** The source's `int`. */
  type i32 = x: int | -0x8000_0000 <= x < 0x8000_0000

  /** FDT_TAGALIGN: round up to a multiple of four. */
  function Align4(n: nat): nat {
    (n + 3) / 4 * 4
  }

  /** fdt32_to_cpu of the four bytes at `i`. */
  function Word(s: seq<byte>, i: nat): u32
    requires i + 4 <= |s|
  {
    var b0: int, b1: int, b2: int, b3: int := s[i], s[i + 1], s[i + 2], s[i + 3];
    b0 * 0x100_0000 + b1 * 0x1_0000 + b2 * 0x100 + b3
  }

  /** cpu_to_fdt32. */
  function EncWord(v: u32): (r: seq<byte>)
    ensures |r| == 4
  {
    [v / 0x100_0000, v / 0x1_0000 % 0x100, v / 0x100 % 0x100, v % 0x100]
  }

  lemma WordOfEnc(v: u32)
    ensures Word(EncWord(v), 0) == v
  {
    assert v == v / 0x100_0000 * 0x100_0000 + v / 0x1_0000 % 0x100 * 0x1_0000
                + v / 0x100 % 0x100 * 0x100 + v % 0x100;
  }

  function Word64(s: seq<byte>, i: nat): u64
    requires i + 8 <= |s|
  {
    Word(s, i) * 0x1_0000_0000 + Word(s, i + 4)
  }

  function EncWord64(v: u64): (r: seq<byte>)
    ensures |r| == 8
  {
    EncWord(v / 0x1_0000_0000) + EncWord(v % 0x1_0000_0000)
  }

  lemma Word64OfEnc(v: u64)
    ensures Word64(EncWord64(v), 0) == v
  {
    var h, l := v / 0x1_0000_0000, v % 0x1_0000_0000;
    WordOfEnc(h);
    WordOfEnc(l);
    WordSlice(EncWord64(v), 0, EncWord(h), 0);
    WordSlice(EncWord64(v), 4, EncWord(l), 0);
  }

  /** A word depends only on its own four bytes. */
  lemma WordSlice(s: seq<byte>, i: nat, t: seq<byte>, j: nat)
    requires i + 4 <= |s| && j + 4 <= |t|
    requires s[i..i + 4] == t[j..j + 4]
    ensures Word(s, i) == Word(t, j)
  {
    var a, b := s[i..i + 4], t[j..j + 4];
    assert a[0] == b[0] && a[1] == b[1] && a[2] == b[2] && a[3] == b[3];
  }

  lemma SliceSlice<T>(s: seq<T>, a: nat, b: nat, c: nat, d: nat)
    requires a <= b <= |s| && c <= d <= b - a
    ensures s[a..b][c..d] == s[a + c..a + d]
  {
    var x, y := s[a..b][c..d], s[a + c..a + d];
    assert |x| == |y|;
    forall i | 0 <= i < |x|
      ensures x[i] == y[i]
    {
      assert x[i] == s[a..b][c + i];
    }
  }

  /** `s` with the bytes from `i` on replaced by `b`. */
  function PutBytes(s: seq<byte>, i: nat, b: seq<byte>): (r: seq<byte>)
    requires i + |b| <= |s|
    ensures |r| == |s|
  {
    s[..i] + b + s[i + |b|..]
  }

  function PutWord(s: seq<byte>, i: nat, v: u32): (r: seq<byte>)
    requires i + 4 <= |s|
    ensures |r| == |s|
  {
    PutBytes(s, i, EncWord(v))
  }

  /** What a word store does to every other word. */
  lemma PutWordEffect(s: seq<byte>, i: nat, v: u32)
    requires i + 4 <= |s|
    ensures Word(PutWord(s, i, v), i) == v
    ensures forall j: nat | j + 4 <= |s| && (j + 4 <= i || i + 4 <= j) :: Word(PutWord(s, i, v), j) == Word(s, j)
  {
    var r := PutWord(s, i, v);
    WordOfEnc(v);
    assert r[i..i + 4] == EncWord(v)[0..4];
    WordSlice(r, i, EncWord(v), 0);
  }

  /** memmove(base + dst, base + src, len). */
  function MoveBytes(s: seq<byte>, dst: nat, src: nat, len: nat): (r: seq<byte>)
    requires dst + len <= |s| && src + len <= |s|
    ensures |r| == |s|
  {
    PutBytes(s, dst, s[src..src + len])
  }

  /** A byte after those from `lo` to `hi` were copied from `d` further on. */
  function Moved(s: seq<byte>, lo: int, hi: int, d: int, k: int): byte
    requires 0 <= k < |s|
  {
    if lo <= k < hi && 0 <= k + d < |s| then s[k + d] else s[k]
  }

  /** memmove inside one buffer: overlapping ranges are copied towards the lower
      address first or the higher address first, whichever keeps the source. */
  method Memmove(a: array<byte>, dst: nat, src: nat, len: nat)
    requires dst + len <= a.Length && src + len <= a.Length
    modifies a
    ensures a[..] == MoveBytes(old(a[..]), dst, src, len)
  {
    if dst <= src {
      CopyUp(a, dst, src, len);
    } else {
      CopyDown(a, dst, src, len);
    }
  }

  method CopyUp(a: array<byte>, dst: nat, src: nat, len: nat)
    requires dst <= src && src + len <= a.Length
    modifies a
    ensures forall k | 0 <= k < a.Length :: a[k] == Moved(old(a[..]), dst, dst + len, src - dst, k)
  {
    for i := 0 to len
      invariant forall k | 0 <= k < a.Length :: a[k] == Moved(old(a[..]), dst, dst + i, src - dst, k)
    {
      a[dst + i] := a[src + i];
    }
  }

  method CopyDown(a: array<byte>, dst: nat, src: nat, len: nat)
    requires src < dst && dst + len <= a.Length
    modifies a
    ensures forall k | 0 <= k < a.Length :: a[k] == Moved(old(a[..]), dst, dst + len, src - dst, k)
  {
    for i := len downto 0
      invariant forall k | 0 <= k < a.Length :: a[k] == Moved(old(a[..]), dst + i, dst + len, src - dst, k)
    {
      a[dst + i] := a[src + i];
    }
  }

  /** memcpy of `b` to `base + i`. */
  method Memcpy(a: array<byte>, i: nat, b: seq<byte>)
    requires i + |b| <= a.Length
    modifies a
    ensures a[..] == PutBytes(old(a[..]), i, b)
  {
    CopyTo(a, i, b);
    assert old(a[..])[..i] == old(a[..i]) && old(a[..])[i + |b|..] == old(a[i + |b|..]);
  }

  method StoreWord(a: array<byte>, i: nat, v: u32)
    requires i + 4 <= a.Length
    modifies a
    ensures a[..] == PutWord(old(a[..]), i, v)
  {
    var e := EncWord(v);
    a[i], a[i + 1], a[i + 2], a[i + 3] := e[0], e[1], e[2], e[3];
  }

  /** memset(base + i, 0, n). */
  method Memzero(a: array<byte>, i: nat, n: nat)
    requires i + n <= a.Length
    modifies a
    ensures a[..] == PutBytes(old(a[..]), i, Zeros(n))
  {
    for k := 0 to n
      invariant forall j | 0 <= j < a.Length :: a[j] == if i <= j < i + k then 0 else old(a[j])
    {
      a[i + k] := 0;
    }
  }

  function Zeros(n: nat): (r: seq<byte>)
    ensures |r| == n && forall k | 0 <= k < n :: r[k] == 0
  {
    seq(n, _ => 0)
  }
}
