/** The allocator at work on its buffer of words: each operation of lib_malloc.c is
    proved against the node list of module Heap. */
module HeapMem {
  import opened Memory
  import opened Heap

  /** Address of the node after `bs[i]`, or null. */
  ghost function NextOf(p: Pool, bs: seq<Blk>, i: nat): int
    requires i < |bs|
  {
    if i + 1 < |bs| then p.base + 4 * bs[i + 1].at else 0
  }

  /** Word just before a block's data, where kmalloc leaves the back pointer. */
  ghost function BackAt(p: Pool, b: Blk): int {
    (b.data - p.base) / 4 - 1
  }

  /** The words of one node. */
  ghost predicate NodeWords(m: seq<u32>, p: Pool, b: Blk, next: int) {
    && b.at + 6 <= |m|
    && m[b.at + F_SEAL] == SEAL && m[b.at + F_NEXT] == next && m[b.at + F_LENGTH] == b.len
    && m[b.at + F_STATUS] == (if b.alloc then 1 else 0) && m[b.at + F_DATA] == b.data
    && (b.alloc ==> 0 <= BackAt(p, b) < |m| && m[BackAt(p, b)] == p.base + 4 * b.at)
  }

  /** The buffer holds exactly this list of nodes. */
  ghost predicate Rep(m: seq<u32>, p: Pool, bs: seq<Blk>) {
    |m| == p.length / 4 && forall i | 0 <= i < |bs| :: NodeWords(m, p, bs[i], NextOf(p, bs, i))
  }

  /** A node depends on the words of its own extent only. */
  lemma NodeFrame(m0: seq<u32>, m1: seq<u32>, p: Pool, b: Blk, next: int)
    requires NodeWords(m0, p, b, next) && DataInside(p, b) && |m1| == |m0|
    requires forall w | b.at <= w < NextAt(b) && w < |m0| :: m1[w] == m0[w]
    ensures NodeWords(m1, p, b, next)
  {
  }

  /** Replacing a stretch of nodes by others over the same words. */
  lemma SubstRep(m0: seq<u32>, m1: seq<u32>, p: Pool, pre: seq<Blk>, a: seq<Blk>, r: seq<Blk>, post: seq<Blk>)
    requires a != [] && r != [] && Tiled(p, pre + a + post) && Rep(m0, p, pre + a + post)
    requires r[0].at == a[0].at && |m1| == |m0|
    requires forall w | 0 <= w < |m0| && !(a[0].at <= w < NextAt(a[|a| - 1])) :: m1[w] == m0[w]
    requires forall j | 0 <= j < |r| :: NodeWords(m1, p, r[j], NextOf(p, r + post, j))
    ensures Rep(m1, p, pre + r + post)
  {
    hide NodeWords, Tiled, NextOf;
    var n := pre + r + post;
    forall i | 0 <= i < |n|
      ensures NodeWords(m1, p, n[i], NextOf(p, n, i))
    {
      SubstNode(m0, m1, p, pre, a, r, post, i);
    }
  }

  lemma SubstNode(m0: seq<u32>, m1: seq<u32>, p: Pool, pre: seq<Blk>, a: seq<Blk>, r: seq<Blk>, post: seq<Blk>, i: nat)
    requires a != [] && r != [] && Tiled(p, pre + a + post) && Rep(m0, p, pre + a + post)
    requires r[0].at == a[0].at && |m1| == |m0|
    requires forall w | 0 <= w < |m0| && !(a[0].at <= w < NextAt(a[|a| - 1])) :: m1[w] == m0[w]
    requires forall j | 0 <= j < |r| :: NodeWords(m1, p, r[j], NextOf(p, r + post, j))
    requires i < |pre + r + post|
    ensures NodeWords(m1, p, (pre + r + post)[i], NextOf(p, pre + r + post, i))
  {
    hide NodeWords, Tiled, Rep;
    var s, n := pre + a + post, pre + r + post;
    assert s[|pre|] == a[0] && s[|pre| + |a| - 1] == a[|a| - 1];
    if i < |pre| {
      assert NextOf(p, n, i) == NextOf(p, s, i);
      KeptNode(m0, m1, p, s, i, |pre|, |pre| + |a|);
    } else if i < |pre| + |r| {
      assert n[i] == r[i - |pre|] && NextOf(p, n, i) == NextOf(p, r + post, i - |pre|);
    } else {
      var k := i - |r| + |a|;
      assert s[k] == n[i] && NextOf(p, n, i) == NextOf(p, s, k);
      KeptNode(m0, m1, p, s, k, |pre|, |pre| + |a|);
    }
  }

  lemma RepNode(m: seq<u32>, p: Pool, bs: seq<Blk>, i: nat)
    requires Rep(m, p, bs) && i < |bs|
    ensures |m| == p.length / 4 && NodeWords(m, p, bs[i], NextOf(p, bs, i))
  {
  }

  /** A node outside the rewritten stretch is as it was. */
  lemma KeptNode(m0: seq<u32>, m1: seq<u32>, p: Pool, s: seq<Blk>, i: nat, lo: nat, hi: nat)
    requires Tiled(p, s) && Rep(m0, p, s) && lo < hi <= |s| && i < |s| && !(lo <= i < hi) && |m1| == |m0|
    requires forall w | 0 <= w < |m0| && !(s[lo].at <= w < NextAt(s[hi - 1])) :: m1[w] == m0[w]
    ensures NodeWords(m1, p, s[i], NextOf(p, s, i))
  {
    hide NodeWords, Tiled, Rep, NextOf;
    RepNode(m0, p, s, i);
    Outside(p, s, i, lo, hi);
    NodeFrame(m0, m1, p, s[i], NextOf(p, s, i));
  }

  lemma Outside(p: Pool, s: seq<Blk>, i: nat, lo: nat, hi: nat)
    requires Tiled(p, s) && lo < hi <= |s| && i < |s| && !(lo <= i < hi)
    ensures DataInside(p, s[i])
    ensures NextAt(s[i]) <= s[lo].at || NextAt(s[hi - 1]) <= s[i].at
  {
    if i < lo {
      Apart(p, s, i, lo);
    } else {
      Apart(p, s, hi - 1, i);
    }
  }

  // ----- Compaction

  function MergedAt(bs: seq<Blk>, i: nat): seq<Blk>
    requires i + 1 < |bs|
  {
    bs[..i] + [Merge(bs[i], bs[i + 1])] + bs[i + 2..]
  }

  /** Two buffers agree on a node's extent. */
  ghost predicate Untouched(m0: seq<u32>, m1: seq<u32>, b: Blk) {
    |m0| == |m1| && forall w | b.at <= w < NextAt(b) && w < |m0| :: m1[w] == m0[w]
  }

  ghost predicate LiveSame(m0: seq<u32>, m1: seq<u32>, bs: seq<Blk>) {
    forall i | 0 <= i < |bs| :: bs[i].alloc ==> Untouched(m0, m1, bs[i])
  }

  lemma MergeRep(m0: seq<u32>, m1: seq<u32>, p: Pool, bs: seq<Blk>, i: nat)
    requires p.Ok() && Tiled(p, bs) && Rep(m0, p, bs) && i + 1 < |bs| && !bs[i].alloc && |m1| == |m0|
    requires bs[i].at + 6 <= bs[i + 1].at <= bs[i + 1].at + 6 <= |m0|
    requires m1[bs[i].at + F_LENGTH] == bs[i].len + NODE + bs[i + 1].len
    requires m1[bs[i].at + F_NEXT] == NextOf(p, bs, i + 1)
    requires forall w | 0 <= w < |m0| && w != bs[i].at + F_LENGTH && w != bs[i].at + F_NEXT && w != bs[i + 1].at ::
      m1[w] == m0[w]
    ensures Rep(m1, p, MergedAt(bs, i))
  {
    hide Tiled, Rep;
    var a, b := bs[i], bs[i + 1];
    var post := bs[i + 2..];
    assert bs == bs[..i] + [a, b] + post;
    assert NodeWords(m1, p, Merge(a, b), NextOf(p, [Merge(a, b)] + post, 0)) by {
      RepNode(m0, p, bs, i);
    }
    Apart(p, bs, i, i + 1);
    SubstRep(m0, m1, p, bs[..i], [a, b], [Merge(a, b)], post);
  }

  lemma MergeLive(m0: seq<u32>, m1: seq<u32>, m2: seq<u32>, p: Pool, bs: seq<Blk>, i: nat)
    requires Tiled(p, bs) && LiveSame(m0, m1, bs) && i + 1 < |bs| && |m2| == |m1| == |m0|
    requires forall w | 0 <= w < |m1| && !(bs[i].at <= w < NextAt(bs[i + 1])) :: m2[w] == m1[w]
    ensures LiveSame(m0, m2, MergedAt(bs, i))
  {
    var n := MergedAt(bs, i);
    forall j | 0 <= j < |n| && n[j].alloc
      ensures Untouched(m0, m2, n[j])
    {
      var k := if j < i then j else j + 1;
      assert n[j] == bs[k] && Untouched(m0, m1, bs[k]);
      hide Tiled;
      Outside(p, bs, k, i, i + 2);
    }
  }

  lemma Inside(p: Pool, bs: seq<Blk>, i: nat)
    requires Tiled(p, bs) && i < |bs|
    ensures DataInside(p, bs[i]) && EndOf(p, bs[i]) <= p.base + p.length
  {
    InPool(p, bs, i);
  }

  /** Words of the pool between the two ends of a node. */
  lemma NodeInBuffer(p: Pool, bs: seq<Blk>, i: nat)
    requires p.Ok() && Tiled(p, bs) && i < |bs|
    ensures bs[i].at + 6 <= NextAt(bs[i]) <= p.length / 4
    ensures i + 1 < |bs| ==> bs[i + 1].at == NextAt(bs[i])
  {
    InPool(p, bs, i);
  }

  /** What reading a node's header gives. */
  lemma NodeRead(m: seq<u32>, p: Pool, bs: seq<Blk>, i: nat)
    requires p.Ok() && Tiled(p, bs) && Rep(m, p, bs) && i < |bs|
    ensures bs[i].at + 6 <= NextAt(bs[i]) <= |m| == p.length / 4
    ensures m[bs[i].at] == SEAL && m[bs[i].at + F_NEXT] == NextOf(p, bs, i)
    ensures m[bs[i].at + F_LENGTH] == bs[i].len && m[bs[i].at + F_DATA] == bs[i].data
    ensures m[bs[i].at + F_STATUS] == if bs[i].alloc then 1 else 0
    ensures i + 1 < |bs| ==> bs[i + 1].at == NextAt(bs[i])
  {
    hide Tiled, Rep;
    NodeInBuffer(p, bs, i);
    RepNode(m, p, bs, i);
  }

  lemma MergeStep(bs: seq<Blk>, i: nat, all: seq<Blk>)
    requires i < |bs| && bs[..i] + Pass(bs[i..]) == all
    ensures i + 1 < |bs| && !bs[i].alloc && !bs[i + 1].alloc ==>
      MergedAt(bs, i)[..i + 1] + Pass(MergedAt(bs, i)[i + 1..]) == all
    ensures !(i + 1 < |bs| && !bs[i].alloc && !bs[i + 1].alloc) ==> bs[..i + 1] + Pass(bs[i + 1..]) == all
  {
    var s := bs[i..];
    if i + 1 < |bs| && !bs[i].alloc && !bs[i + 1].alloc {
      var n := MergedAt(bs, i);
      assert n[..i + 1] == bs[..i] + [Merge(bs[i], bs[i + 1])] && n[i + 1..] == bs[i + 2..] == s[2..];
    } else {
      assert bs[..i + 1] == bs[..i] + [bs[i]] && s[1..] == bs[i + 1..];
      assert |s| == 1 ==> Pass(s[1..]) == [] && s == [bs[i]];
    }
  }

  lemma RootFirst(p: Pool, bs: seq<Blk>)
    requires p.Ok() && Tiled(p, bs)
    ensures bs != [] && bs[0].at == 0 && p.length / 4 >= 6
  {
  }

  lemma PassNil()
    ensures Pass([]) == []
  {
  }

  lemma MergedAtIs(bs: seq<Blk>, i: nat)
    requires i + 1 < |bs|
    ensures MergedAt(bs, i) == bs[..i] + [Merge(bs[i], bs[i + 1])] + bs[i + 2..]
    ensures |MergedAt(bs, i)| == |bs| - 1 && MergedAt(bs, i)[i].at == bs[i].at
  {
  }

  /** A sweep keeps the live nodes among the nodes it was given. */
  lemma {:induction false} PassLive(s: seq<Blk>, i: nat) returns (j: nat)
    requires i < |Pass(s)| && Pass(s)[i].alloc
    ensures j < |s| && s[j] == Pass(s)[i]
    decreases |s|
  {
    if |s| <= 1 {
      j := i;
    } else if !s[0].alloc && !s[1].alloc {
      j := PassLive(s[2..], i - 1);
      j := j + 2;
    } else if i == 0 {
      j := 0;
    } else {
      j := PassLive(s[1..], i - 1);
      j := j + 1;
    }
  }

  lemma LiveTrans(m0: seq<u32>, m1: seq<u32>, m2: seq<u32>, s: seq<Blk>)
    requires LiveSame(m0, m1, s) && LiveSame(m1, m2, Pass(s))
    ensures LiveSame(m0, m2, Pass(s))
  {
    forall i | 0 <= i < |Pass(s)| && Pass(s)[i].alloc
      ensures Untouched(m0, m2, Pass(s)[i])
    {
      hide Pass;
      var j := PassLive(s, i);
      assert Untouched(m0, m1, s[j]) && Untouched(m1, m2, Pass(s)[i]);
    }
  }

  lemma LiveRefl(m: seq<u32>, bs: seq<Blk>)
    ensures LiveSame(m, m, bs)
  {
  }

  lemma MergeFits(p: Pool, bs: seq<Blk>, i: nat)
    requires p.Ok() && Tiled(p, bs) && i + 1 < |bs|
    ensures bs[i].len + NODE + bs[i + 1].len < TWO32
  {
    InPool(p, bs, i + 1);
  }

  // ----- Placing

  /** First fit is the only index with its property. */
  lemma FirstFitIs(p: Pool, bs: seq<Blk>, size: u32, pa: u32, k: nat)
    requires pa > 0 && k <= |bs|
    requires k < |bs| ==> !bs[k].alloc && Need32(p, bs[k], size, pa) <= bs[k].len
    requires forall i | 0 <= i < k :: bs[i].alloc || bs[i].len < Need32(p, bs[i], size, pa)
    ensures FirstFit32(p, bs, size, pa) == k
  {
  }

  /** For requests whose sums cannot wrap, the search finds the first node that is big
      enough. */
  lemma FitsSame(p: Pool, bs: seq<Blk>, size: u32, pa: u32)
    requires pa > 0 && 2 * size + pa <= TWO32
    ensures FirstFit32(p, bs, size, pa) == FirstFit(p, bs, size, pa)
  {
    hide Need, Need32;
    forall i | 0 <= i < |bs|
      ensures Need32(p, bs[i], size, pa) == Need(p, bs[i], size, pa)
    {
      NeedNoWrap(p, bs[i], size, pa);
    }
    FirstFitIs(p, bs, size, pa, FirstFit(p, bs, size, pa));
  }

  lemma {:induction false} PowerDivides(n: nat, m: nat)
    requires PowerOfTwo(n) && PowerOfTwo(m) && n <= m
    ensures n > 0 && m % n == 0
  {
    if n > 1 {
      PowerDivides(n / 2, m / 2);
      var c := m / 2 / (n / 2);
      assert m / 2 == c * (n / 2) + m / 2 % (n / 2);
      assert m == c * n;
      MultipleMod(c, n);
    } else {
      assert m % 1 == 0;
    }
  }

  lemma PowerDouble(n: nat, m: nat)
    requires PowerOfTwo(n) && m == 2 * n
    ensures PowerOfTwo(m)
  {
    assert m / 2 == n;
  }

  lemma PowerShift(n: nat)
    requires PowerOfTwo(n)
    ensures PowerOfTwo(16 * n)
  {
    hide PowerOfTwo;
    PowerDouble(n, 2 * n);
    PowerDouble(2 * n, 4 * n);
    PowerDouble(4 * n, 8 * n);
    PowerDouble(8 * n, 16 * n);
  }

  lemma TopPower()
    ensures PowerOfTwo(TWO32)
  {
    PowerShift(1);
    PowerShift(0x10);
    PowerShift(0x100);
    PowerShift(0x1000);
    PowerShift(0x1_0000);
    PowerShift(0x10_0000);
    PowerShift(0x100_0000);
    PowerShift(0x1000_0000);
  }

  lemma TopMultiple(n: nat)
    requires PowerOfTwo(n) && 0 < n < TWO32
    ensures TWO32 == TWO32 / n * n
  {
    hide PowerOfTwo;
    TopPower();
    PowerDivides(n, TWO32);
    DivMod(TWO32, n);
  }

  /** The addition that aligns a data address stays inside 32 bits. */
  lemma AlignStep(a: u32, n: nat)
    requires PowerOfTwo(n) && 0 < n < TWO32 && a % n != 0
    ensures (a + n) % TWO32 / n * n == (a + Pad(a, n)) % TWO32
  {
    TopMultiple(n);
    hide PowerOfTwo;
    var q, c := a / n, TWO32 / n;
    DivMod(a, n);
    StepBelow(a, n, q, c);
    PadRest(a, n);
    hide Pad;
    if a + n < TWO32 {
      NextMultiple(a, n, q);
      WrapLow(a + n);
      WrapLow(a + Pad(a, n));
    } else {
      WrapHigh(a + n);
      SmallQuotient(a + n - TWO32, n);
      WrapHigh(a + Pad(a, n));
    }
  }

  lemma PadRest(a: nat, n: nat)
    requires n > 0 && a % n != 0
    ensures Pad(a, n) == n - a % n
  {
  }

  lemma WrapLow(x: nat)
    requires x < TWO32
    ensures x % TWO32 == x
  {
  }

  lemma WrapHigh(x: nat)
    requires TWO32 <= x < 2 * TWO32
    ensures x % TWO32 == x - TWO32
  {
  }

  lemma SmallQuotient(a: nat, n: nat)
    requires a < n
    ensures a / n * n == 0
  {
    DivMod(a, n);
    if a / n >= 1 {
      MulMono(1, a / n, n);
    }
  }

  /** The next multiple is below 2^32 together with the sum, or it is 2^32. */
  lemma StepBelow(a: u32, n: nat, q: nat, c: nat)
    requires n > 0 && q == a / n && TWO32 == c * n && a % n != 0
    ensures a + (n - a % n) == (q + 1) * n
    ensures if a + n < TWO32 then a + (n - a % n) < TWO32 else a + (n - a % n) == TWO32
  {
    DivMod(a, n);
    assert (q + 1) * n == q * n + n && (q + 2) * n == q * n + n + n;
    if q >= c {
      MulMono(c, q, n);
    } else if q + 1 < c {
      MulMono(q + 2, c, n);
    }
  }

  lemma MulMono(x: nat, y: nat, n: nat)
    requires x <= y
    ensures x * n <= y * n
  {
    assert y * n == x * n + (y - x) * n;
  }

  lemma NextMultiple(a: nat, n: nat, q: nat)
    requires n > 0 && q * n <= a < q * n + n
    ensures (a + n) / n == q + 1
  {
    var c, r := (a + n) / n, (a + n) % n;
    assert a + n == c * n + r;
    assert c > q + 1 ==> (c - q - 2) * n >= 0;
    assert c < q + 1 ==> (q - c) * n >= 0;
  }

  lemma NeedNoWrap(p: Pool, b: Blk, size: u32, pa: u32)
    requires pa > 0 && 2 * size + pa <= TWO32
    ensures Need32(p, b, size, pa) == Need(p, b, size, pa)
  {
    NeedExact(p, b, size, pa);
  }

  /** The live node over a node's whole extent. */
  lemma WholeRep(m0: seq<u32>, m1: seq<u32>, p: Pool, bs: seq<Blk>, k: nat, r: Blk)
    requires p.Ok() && Tiled(p, bs) && Rep(m0, p, bs) && k < |bs| && |m1| == |m0|
    requires r.alloc && r.at == bs[k].at && r.len == bs[k].len && DataInside(p, r)
    requires bs[k].at + 6 <= NextAt(bs[k]) <= |m0|
    requires m1[r.at + F_STATUS] == 1 && m1[r.at + F_DATA] == r.data
    requires 0 <= BackAt(p, r) < |m1| && m1[BackAt(p, r)] == p.base + 4 * r.at
    requires forall w | 0 <= w < |m0| && w != r.at + F_STATUS && w != r.at + F_DATA && w != BackAt(p, r) ::
      m1[w] == m0[w]
    ensures Rep(m1, p, bs[..k] + [r] + bs[k + 1..])
  {
    hide Tiled, Rep;
    var post := bs[k + 1..];
    assert bs == bs[..k] + [bs[k]] + post;
    RepNode(m0, p, bs, k);
    assert r.at + 5 <= BackAt(p, r) < NextAt(r);
    assert NodeWords(m1, p, r, NextOf(p, [r] + post, 0));
    hide NodeWords, BackAt;
    SubstRep(m0, m1, p, bs[..k], [bs[k]], [r], post);
  }

  /** The live node and the free node split off behind it. */
  lemma SplitRep(m0: seq<u32>, m1: seq<u32>, p: Pool, bs: seq<Blk>, k: nat, r: Blk, f: Blk)
    requires p.Ok() && Tiled(p, bs) && Rep(m0, p, bs) && k < |bs| && |m1| == |m0|
    requires r.at == bs[k].at && NextAt(r) == f.at && NextAt(f) == NextAt(bs[k])
    requires bs[k].at + 6 <= NextAt(bs[k]) <= |m0|
    requires NodeWords(m1, p, r, p.base + 4 * f.at) && NodeWords(m1, p, f, NextOf(p, bs, k))
    requires forall w | 0 <= w < |m0| && !(r.at <= w < NextAt(f)) :: m1[w] == m0[w]
    ensures Rep(m1, p, bs[..k] + [r, f] + bs[k + 1..])
  {
    hide Tiled, Rep, NodeWords;
    var post := bs[k + 1..];
    assert bs == bs[..k] + [bs[k]] + post;
    assert NextOf(p, [r, f] + post, 0) == p.base + 4 * f.at && NextOf(p, [r, f] + post, 1) == NextOf(p, bs, k);
    SubstRep(m0, m1, p, bs[..k], [bs[k]], [r, f], post);
  }

  /** A live node cut at address `e`, with a free node behind. */
  function Cut(p: Pool, b: Blk, e: u32): (r: seq<Blk>)
    requires p.Ok() && DataOf(p, b) <= e && e + NODE <= EndOf(p, b) < TWO32
    ensures |r| == 2
  {
    [Blk(b.at, e - DataOf(p, b), true, b.data), Blk((e - p.base) / 4, EndOf(p, b) - e - NODE, false, e + NODE)]
  }

  lemma CutOk(p: Pool, b: Blk, e: u32)
    requires p.Ok() && b.alloc && DataInside(p, b) && e % 4 == 0 && b.data < e && e + NODE <= EndOf(p, b) < TWO32
    ensures var r := Cut(p, b, e);
      && NextAt(r[0]) == r[1].at == (e - p.base) / 4 && p.base + 4 * r[1].at == e && NextAt(r[1]) == NextAt(b)
      && r[0].len % 4 == 0 && r[1].len % 4 == b.len % 4 && EndOf(p, r[1]) == EndOf(p, b)
      && DataInside(p, r[0]) && DataInside(p, r[1])
  {
    assert (e - p.base) % 4 == 0;
  }

  /** The buffer after the words of the two nodes have been written. */
  ghost predicate CutWrites(m0: seq<u32>, m1: seq<u32>, p: Pool, b: Blk, next: int, e: u32) {
    var at, n := b.at, (e - p.base) / 4;
    && |m1| == |m0| && at + 6 <= n <= n + 6 <= |m1|
    && m1[at + F_NEXT] == e && m1[at + F_LENGTH] == e - DataOf(p, b) && m1[at + F_STATUS] == 1
    && m1[n] == SEAL && m1[n + F_NEXT] == next && m1[n + F_LENGTH] == EndOf(p, b) - e - NODE
    && m1[n + F_STATUS] == 0 && m1[n + F_DATA] == e + NODE
    && forall w | 0 <= w < |m0| && !(at + 1 <= w <= at + 3) && !(n <= w < n + 5) :: m1[w] == m0[w]
  }

  lemma CutRep(m0: seq<u32>, m1: seq<u32>, p: Pool, bs: seq<Blk>, k: nat, e: u32)
    requires p.Ok() && Tiled(p, bs) && Rep(m0, p, bs) && k < |bs|
    requires bs[k].alloc && e % 4 == 0 && bs[k].data < e && e + NODE <= EndOf(p, bs[k])
    requires CutWrites(m0, m1, p, bs[k], NextOf(p, bs, k), e)
    ensures DataInside(p, bs[k]) && EndOf(p, bs[k]) < TWO32
    ensures var s := bs[..k] + Cut(p, bs[k], e) + bs[k + 1..]; Tiled(p, s) && Rep(m1, p, s)
    ensures forall w | 0 <= w < |m0| && !(bs[k].at <= w < NextAt(bs[k])) :: m1[w] == m0[w]
  {
    hide Tiled, Rep, NodeWords;
    Inside(p, bs, k);
    NodeInBuffer(p, bs, k);
    RepNode(m0, p, bs, k);
    CutOk(p, bs[k], e);
    CutWords(m0, m1, p, bs, k, e);
    var c := Cut(p, bs[k], e);
    SubstTiled(p, bs, k, c);
    SplitRep(m0, m1, p, bs, k, c[0], c[1]);
    assert c == [c[0], c[1]];
  }

  lemma CutWords(m0: seq<u32>, m1: seq<u32>, p: Pool, bs: seq<Blk>, k: nat, e: u32)
    requires p.Ok() && Rep(m0, p, bs) && k < |bs| && |m1| == |m0|
    requires bs[k].alloc && DataInside(p, bs[k]) && e % 4 == 0 && bs[k].data < e && e + NODE <= EndOf(p, bs[k]) < TWO32
    requires bs[k].at + 6 <= NextAt(bs[k]) <= |m0|
    requires CutWrites(m0, m1, p, bs[k], NextOf(p, bs, k), e)
    ensures NodeWords(m1, p, Cut(p, bs[k], e)[0], e) && NodeWords(m1, p, Cut(p, bs[k], e)[1], NextOf(p, bs, k))
  {
    RepNode(m0, p, bs, k);
    hide Rep;
    CutOk(p, bs[k], e);
    assert bs[k].at + 5 <= BackAt(p, bs[k]) < (e - p.base) / 4;
  }

  lemma AlignChoice(align: u32)
    requires align == 0 || PowerOfTwo(align)
    ensures PowerOfTwo(PtrAlign(align)) && PtrAlign(align) >= 4 && PtrAlign(align) % 4 == 0
  {
    if align >= 4 {
      PowerMultiple(align);
    } else {
      assert PowerOfTwo(2) && PowerOfTwo(4) && PowerOfTwo(8);
    }
  }

  lemma PadZero(a: nat, n: nat)
    requires n > 0
    ensures Pad(a, n) == 0 <==> a % n == 0
  {
  }

  /** Placing is claiming the node and, when enough is left, cutting it. */
  lemma PlaceCut(p: Pool, b: Blk, size: nat, pa: nat, asked: nat)
    requires p.Ok() && pa > 0 && pa % 4 == 0 && size > 0 && size % 4 == 0
    requires Suits(p, b, size, pa, asked) && EndOf(p, b) <= p.base + p.length
    ensures var d, r := DataOf(p, b) + Pad(DataOf(p, b), pa), Place(p, b, size, pa, asked);
      && d % 4 == 0 && DataInside(p, Blk(b.at, b.len, true, d)) && r[0].data == d && r[0].alloc
      && (b.len - asked < MINBLK ==> r == [Blk(b.at, b.len, true, d)])
      && (b.len - asked >= MINBLK ==>
            d + size + NODE <= EndOf(p, b) && r == Cut(p, Blk(b.at, b.len, true, d), d + size))
  {
    PlaceOk(p, b, size, pa, asked);
    hide Pad;
  }

  lemma Resubst(s: seq<Blk>, k: nat, x: Blk, c: seq<Blk>)
    requires k < |s|
    ensures var n := s[..k] + [x] + s[k + 1..];
      |n| == |s| && n[k] == x && n[..k] + c + n[k + 1..] == s[..k] + c + s[k + 1..]
  {
    var n := s[..k] + [x] + s[k + 1..];
    assert n[..k] == s[..k] && n[k + 1..] == s[k + 1..];
  }

  // ----- Releasing

  /** The node whose data address is `ptr` becomes free. */
  function Released(bs: seq<Blk>, ptr: int): (r: seq<Blk>)
    ensures |r| == |bs|
  {
    seq(|bs|, i requires 0 <= i < |bs| => if bs[i].alloc && bs[i].data == ptr then bs[i].(alloc := false) else bs[i])
  }

  lemma ReleasedOne(p: Pool, bs: seq<Blk>, k: nat)
    requires Tiled(p, bs) && k < |bs| && bs[k].alloc
    ensures Released(bs, bs[k].data) == bs[..k] + [bs[k].(alloc := false)] + bs[k + 1..]
  {
    var ptr := bs[k].data;
    forall i | 0 <= i < |bs| && i != k && bs[i].alloc
      ensures bs[i].data != ptr
    {
      LiveDisjoint(p, bs, i, k);
      assert DataInside(p, bs[i]) && DataInside(p, bs[k]);
    }
    assert forall i | 0 <= i < |bs| :: Released(bs, ptr)[i] == (bs[..k] + [bs[k].(alloc := false)] + bs[k + 1..])[i];
  }

  lemma ReleasedNone(p: Pool, bs: seq<Blk>, ptr: int)
    requires Tiled(p, bs) && !(p.base <= ptr < p.base + p.length)
    ensures Released(bs, ptr) == bs
  {
    forall i | 0 <= i < |bs|
      ensures Released(bs, ptr)[i] == bs[i]
    {
      InPool(p, bs, i);
      assert DataInside(p, bs[i]);
    }
  }

  lemma ReleaseRep(m0: seq<u32>, m1: seq<u32>, p: Pool, bs: seq<Blk>, k: nat)
    requires p.Ok() && Tiled(p, bs) && Rep(m0, p, bs) && k < |bs| && bs[k].alloc && bs[k].at + 6 <= |m0|
    requires m1 == m0[bs[k].at + F_STATUS := 0]
    ensures Tiled(p, Released(bs, bs[k].data)) && Rep(m1, p, Released(bs, bs[k].data))
  {
    hide Rep, NodeWords, Released;
    var b, r := bs[k], bs[k].(alloc := false);
    ReleasedOne(p, bs, k);
    assert DataInside(p, b);
    SubstTiled(p, bs, k, [r]);
    hide Tiled;
    ReleasedWords(m0, m1, p, bs, k);
    assert bs == bs[..k] + [b] + bs[k + 1..];
    SubstRep(m0, m1, p, bs[..k], [b], [r], bs[k + 1..]);
  }

  lemma ReleasedWords(m0: seq<u32>, m1: seq<u32>, p: Pool, bs: seq<Blk>, k: nat)
    requires Rep(m0, p, bs) && k < |bs| && bs[k].at + 6 <= |m0|
    requires m1 == m0[bs[k].at + F_STATUS := 0]
    ensures NodeWords(m1, p, bs[k].(alloc := false), NextOf(p, [bs[k].(alloc := false)] + bs[k + 1..], 0))
  {
    RepNode(m0, p, bs, k);
  }

  /** Where kfree finds the node: the word before the data. */
  lemma BackPointer(m: seq<u32>, p: Pool, bs: seq<Blk>, k: nat)
    requires p.Ok() && Tiled(p, bs) && Rep(m, p, bs) && k < |bs| && bs[k].alloc
    ensures 1 <= (bs[k].data - p.base) / 4 <= |m| && m[(bs[k].data - p.base) / 4 - 1] == p.base + 4 * bs[k].at
    ensures bs[k].data < p.base + p.length
  {
    hide Tiled, Rep;
    RepNode(m, p, bs, k);
    Inside(p, bs, k);
  }

  lemma ReleasedLive(m0: seq<u32>, m1: seq<u32>, p: Pool, bs: seq<Blk>, k: nat)
    requires Tiled(p, bs) && k < |bs| && bs[k].alloc && bs[k].at + 6 <= |m0|
    requires m1 == m0[bs[k].at + F_STATUS := 0]
    ensures LiveSame(m0, m1, Released(bs, bs[k].data))
  {
    var r := Released(bs, bs[k].data);
    ReleasedOne(p, bs, k);
    forall i | 0 <= i < |r| && r[i].alloc
      ensures Untouched(m0, m1, r[i])
    {
      assert i != k && r[i] == bs[i];
      hide Tiled, Released;
      Outside(p, bs, i, k, k + 1);
    }
  }

  lemma {:induction false} CoalesceLive(s: seq<Blk>, i: nat) returns (j: nat)
    requires i < |Coalesce(s)| && Coalesce(s)[i].alloc
    ensures j < |s| && s[j] == Coalesce(s)[i]
  {
    if |s| <= 1 {
      j := i;
    } else if i == 0 {
      j := 0;
    } else {
      var r := Coalesce(s[1..]);
      j := CoalesceLive(s[1..], if !s[0].alloc && !r[0].alloc then i else i - 1);
      j := j + 1;
    }
  }

  lemma LiveCoalesce(m0: seq<u32>, m1: seq<u32>, m2: seq<u32>, s: seq<Blk>)
    requires LiveSame(m0, m1, s) && LiveSame(m1, m2, Coalesce(s))
    ensures LiveSame(m0, m2, Coalesce(s))
  {
    forall i | 0 <= i < |Coalesce(s)| && Coalesce(s)[i].alloc
      ensures Untouched(m0, m2, Coalesce(s)[i])
    {
      hide Coalesce;
      var j := CoalesceLive(s, i);
      assert Untouched(m0, m1, s[j]) && Untouched(m1, m2, Coalesce(s)[i]);
    }
  }

  // ----- The live blocks

  ghost function LiveOf(bs: seq<Blk>): set<Blk> {
    set b | b in bs && b.alloc
  }

  /** Addresses are multiples of the alignment asked for; without one, of eight. */
  predicate Fitting(ptr: int, align: nat) {
    if align < 4 then ptr % 8 == 0 else ptr % align == 0
  }

  /** Merging free nodes neither loses nor adds a live block. */
  lemma {:induction false} CoalesceKeeps(bs: seq<Blk>)
    ensures LiveOf(Coalesce(bs)) == LiveOf(bs)
  {
    if |bs| > 1 {
      CoalesceKeeps(bs[1..]);
      var r, c := Coalesce(bs[1..]), Coalesce(bs);
      assert bs == [bs[0]] + bs[1..] && r == [r[0]] + r[1..];
      forall b: Blk | b.alloc
        ensures b in c <==> b in bs
      {
        assert b in r <==> b in LiveOf(r);
        assert b in bs[1..] <==> b in LiveOf(bs[1..]);
      }
    }
  }

  lemma ReleasedKeeps(bs: seq<Blk>, ptr: int)
    ensures LiveOf(Released(bs, ptr)) == set b | b in LiveOf(bs) && b.data != ptr
  {
    var r := Released(bs, ptr);
    forall b: Blk | b.alloc
      ensures b in r <==> b in bs && b.data != ptr
    {
      if b in bs && b.data != ptr {
        var i :| 0 <= i < |bs| && bs[i] == b;
        assert r[i] == b;
      }
    }
  }

  lemma AllocatedLive(p: Pool, bs: seq<Blk>, k: nat, size: nat, pa: nat, asked: nat)
    requires p.Ok() && k < |bs| && pa > 0 && Suits(p, bs[k], size, pa, asked) && EndOf(p, bs[k]) <= p.base + p.length
    requires !bs[k].alloc && Tiled(p, bs)
    ensures var n := Allocated(p, bs, k, size, pa, asked);
      k < |n| && LiveOf(n) == LiveOf(bs) + {n[k]} && n[k] !in LiveOf(bs) && n[k].at == bs[k].at
  {
    var n, r := Allocated(p, bs, k, size, pa, asked), Place(p, bs[k], size, pa, asked);
    assert n[k] == r[0];
    assert bs == bs[..k] + [bs[k]] + bs[k + 1..];
    assert |r| == 2 ==> r == [r[0], r[1]] && !r[1].alloc;
    assert |r| == 1 ==> r == [r[0]];
    if n[k] in bs {
      var i :| 0 <= i < |bs| && bs[i] == n[k];
      OnePlace(p, bs, i, k);
    }
  }

  /** No two nodes start at the same word. */
  lemma OnePlace(p: Pool, bs: seq<Blk>, i: nat, j: nat)
    requires Tiled(p, bs) && i < |bs| && j < |bs| && bs[i].at == bs[j].at
    ensures i == j
  {
    if i < j {
      Apart(p, bs, i, j);
    } else if j < i {
      Apart(p, bs, j, i);
    }
  }

  /** Words outside a free node: the live blocks are untouched. */
  lemma OthersUntouched(m0: seq<u32>, m1: seq<u32>, p: Pool, bs: seq<Blk>, k: nat)
    requires Tiled(p, bs) && k < |bs| && !bs[k].alloc && |m0| == |m1|
    requires forall w | 0 <= w < |m0| && !(bs[k].at <= w < NextAt(bs[k])) :: m1[w] == m0[w]
    ensures forall b | b in LiveOf(bs) :: Untouched(m0, m1, b)
  {
    forall b | b in LiveOf(bs)
      ensures Untouched(m0, m1, b)
    {
      var i :| 0 <= i < |bs| && bs[i] == b;
      Outside(p, bs, i, k, k + 1);
    }
  }

  lemma LiveUntouched(m0: seq<u32>, m1: seq<u32>, bs: seq<Blk>)
    requires LiveSame(m0, m1, bs)
    ensures forall b | b in LiveOf(bs) :: Untouched(m0, m1, b)
  {
  }

  /** Merging two free nodes anywhere does not change what compaction gives. */
  lemma {:induction false} CoalesceMergeAt(pre: seq<Blk>, a: Blk, b: Blk, post: seq<Blk>)
    requires !a.alloc && !b.alloc
    ensures Coalesce(pre + [a, b] + post) == Coalesce(pre + [Merge(a, b)] + post)
  {
    var x, y := pre + [a, b] + post, pre + [Merge(a, b)] + post;
    if pre == [] {
      CoalesceMerge(x);
      assert y == [Merge(x[0], x[1])] + x[2..];
    } else {
      CoalesceMergeAt(pre[1..], a, b, post);
      assert x == [pre[0]] + (pre[1..] + [a, b] + post) && y == [pre[0]] + (pre[1..] + [Merge(a, b)] + post);
      CoalesceHead(pre[0], pre[1..] + [a, b] + post, pre[1..] + [Merge(a, b)] + post);
    }
  }

  /** kfree undoes kmalloc, except that the node keeps the data address it was
      given. */
  lemma AllocThenFree(p: Pool, bs: seq<Blk>, k: nat, size: nat, pa: nat, asked: nat)
    requires p.Ok() && Tiled(p, bs) && NoAdjacentFree(bs) && k < |bs| && !bs[k].alloc
    requires pa > 0 && pa % 4 == 0 && size > 0 && size % 4 == 0 && Suits(p, bs[k], size, pa, asked)
    ensures EndOf(p, bs[k]) <= p.base + p.length
    ensures var n := Allocated(p, bs, k, size, pa, asked);
      k < |n| && n[k].alloc && Coalesce(Released(n, n[k].data)) == bs[..k] + [bs[k].(data := n[k].data)] + bs[k + 1..]
  {
    hide Tiled, Place, Coalesce, NoAdjacentFree, Released, Suits;
    AllocatedOk(p, bs, k, size, pa, asked);
    var n, r := Allocated(p, bs, k, size, pa, asked), Place(p, bs[k], size, pa, asked);
    PlaceOk(p, bs[k], size, pa, asked);
    ReleasedOne(p, n, k);
    var f, post := r[0].(alloc := false), bs[k + 1..];
    var done := bs[k].(data := r[0].data);
    var b := bs[..k] + [done] + post;
    assert n[..k] == bs[..k] && n[k] == r[0];
    SameShapeFree(bs, k, done);
    CoalesceIdle(b);
    if |r| == 1 {
      assert f == done && n[k + 1..] == post;
    } else {
      assert n[k + 1..] == [r[1]] + post;
      assert bs[..k] + [f] + ([r[1]] + post) == bs[..k] + [f, r[1]] + post;
      CoalesceMergeAt(bs[..k], f, r[1], post);
      assert Merge(f, r[1]) == done;
    }
  }

  lemma SameShapeFree(bs: seq<Blk>, k: nat, x: Blk)
    requires NoAdjacentFree(bs) && k < |bs| && x.alloc == bs[k].alloc
    ensures NoAdjacentFree(bs[..k] + [x] + bs[k + 1..])
  {
    var n := bs[..k] + [x] + bs[k + 1..];
    forall i | 0 <= i < |n| - 1
      ensures n[i].alloc || n[i + 1].alloc
    {
      assert bs[i].alloc || bs[i + 1].alloc;
    }
  }

  /** Writing inside a live block's data, or inside a free node's payload, leaves
      the node list alone. */
  lemma PayloadWrites(m0: seq<u32>, m1: seq<u32>, p: Pool, bs: seq<Blk>, k: nat)
    requires p.Ok() && Tiled(p, bs) && Rep(m0, p, bs) && k < |bs| && |m1| == |m0|
    requires forall w | 0 <= w < |m0| && m1[w] != m0[w] ::
      (if bs[k].alloc then (bs[k].data - p.base) / 4 else bs[k].at + 6) <= w < NextAt(bs[k])
    ensures Rep(m1, p, bs)
  {
    hide Tiled, Rep;
    assert bs == bs[..k] + [bs[k]] + bs[k + 1..];
    RepNode(m0, p, bs, k);
    Inside(p, bs, k);
    assert NextOf(p, [bs[k]] + bs[k + 1..], 0) == NextOf(p, bs, k);
    assert bs[k].alloc ==> bs[k].at + 5 <= BackAt(p, bs[k]);
    assert NodeWords(m1, p, bs[k], NextOf(p, bs, k));
    hide NodeWords;
    SubstRep(m0, m1, p, bs[..k], [bs[k]], [bs[k]], bs[k + 1..]);
  }

  // ----- Statistics

  datatype Stats = Stats(total: int, allocBytes: int, freeBytes: int, allocNodes: int, freeNodes: int, largest: int)

  function Bytes(bs: seq<Blk>, live: bool): int {
    if bs == [] then 0
    else Bytes(bs[..|bs| - 1], live) + if bs[|bs| - 1].alloc == live then bs[|bs| - 1].len else 0
  }

  function Nodes(bs: seq<Blk>, live: bool): int {
    if bs == [] then 0
    else Nodes(bs[..|bs| - 1], live) + if bs[|bs| - 1].alloc == live then 1 else 0
  }

  /** The largest free payload. */
  ghost predicate IsLargest(bs: seq<Blk>, n: int) {
    && (forall i | 0 <= i < |bs| :: !bs[i].alloc ==> bs[i].len <= n)
    && (n == 0 || exists i | 0 <= i < |bs| :: !bs[i].alloc && bs[i].len == n)
  }

  /** Every byte of the pool is payload or header. */
  lemma {:induction false} Conserved(p: Pool, bs: seq<Blk>, n: nat)
    requires p.Ok() && Tiled(p, bs) && 0 < n <= |bs|
    ensures Nodes(bs[..n], true) + Nodes(bs[..n], false) == n
    ensures p.base + Bytes(bs[..n], true) + Bytes(bs[..n], false) + n * NODE == EndOf(p, bs[n - 1])
  {
    var s := bs[..n];
    assert s[..n - 1] == bs[..n - 1];
    if n == 1 {
      assert s[..0] == [];
    } else {
      Conserved(p, bs, n - 1);
      assert bs[n - 2].len % 4 == 0 && bs[n - 2 + 1].at == NextAt(bs[n - 2]);
    }
  }

  lemma WholePool(p: Pool, bs: seq<Blk>)
    requires Tiled(p, bs)
    ensures EndOf(p, bs[|bs| - 1]) == p.base + p.length
  {
  }

  lemma NextAligned(p: Pool, bs: seq<Blk>, i: nat)
    requires Tiled(p, bs) && i < |bs|
    ensures i + 1 < |bs| ==> EndOf(p, bs[i]) == p.base + 4 * bs[i + 1].at
  {
  }

  lemma NoLargest()
    ensures IsLargest([], 0)
  {
  }

  lemma LargestStep(bs: seq<Blk>, i: nat, n: int)
    requires i < |bs| && IsLargest(bs[..i], n)
    ensures IsLargest(bs[..i + 1], if !bs[i].alloc && bs[i].len > n then bs[i].len else n)
  {
    var s := bs[..i + 1];
    assert s[i] == bs[i] && forall j | 0 <= j < i :: s[j] == bs[..i][j];
    if (bs[i].alloc || bs[i].len <= n) && n != 0 {
      var j :| 0 <= j < |bs[..i]| && !bs[..i][j].alloc && bs[..i][j].len == n;
      assert !s[j].alloc && s[j].len == n;
    }
  }

  // ----- Taking a node, with 32-bit addresses that may lie outside the pool

  /** Word of the pool at an address modulo 2^32; others are below or behind. */
  function Idx(p: Pool, addr: int): int {
    var x := addr % TWO32;
    if x < p.base then -1 else (x - p.base) / 4
  }

  function Poke(s: seq<u32>, w: int, v: u32): (r: seq<u32>)
    ensures |r| == |s|
  {
    if 0 <= w < |s| then s[w := v] else s
  }

  /** The words after the node at `at` was claimed with data at `d`. */
  ghost function Claimed(s: seq<u32>, p: Pool, at: nat, d: u32): (r: seq<u32>)
    requires at + 6 <= |s| && p.base + 4 * at < TWO32
    ensures |r| == |s|
  {
    Poke(s[at + F_DATA := d][at + F_STATUS := 1], Idx(p, d - 4), p.base + 4 * at)
  }

  /** The words after it was split at `e`. */
  ghost function SplitStores(s: seq<u32>, p: Pool, at: nat, e: u32): (r: seq<u32>)
    requires at + 6 <= |s|
    ensures |r| == |s|
  {
    var m, len := p.base + 4 * at, s[at + F_LENGTH];
    Pokes(s, at, Idx(p, e), Idx(p, e + 4), Idx(p, e + 8), Idx(p, e + 12), Idx(p, e + 16),
          e, (e - (m + NODE)) % TWO32, (e + NODE) % TWO32, (m + NODE + len - (e + NODE)) % TWO32)
  }

  /** The stores of a split in their order; the new header's words are at `n0` to `n4`. */
  ghost function Pokes(s: seq<u32>, at: nat, n0: int, n1: int, n2: int, n3: int, n4: int,
                       e: u32, len: u32, data: u32, rest: u32): (r: seq<u32>)
    requires at + 6 <= |s|
    ensures |r| == |s|
  {
    var s1 := Poke(s, n1, s[at + F_NEXT]);
    var s2 := s1[at + F_LENGTH := len][at + F_NEXT := e][at + F_STATUS := 1];
    var s3 := Poke(s2, n0, SEAL);
    var s4 := Poke(s3, n4, data);
    var s5 := Poke(s4, n2, rest);
    Poke(s5, n3, 0)
  }

  /** The same for a header at word `n` behind the node's. */
  lemma PokesAt(s: seq<u32>, at: nat, n: nat, e: u32, len: u32, data: u32, rest: u32)
    requires at + 6 <= |s| && at + 6 <= n
    ensures var x := Pokes(s, at, n, n + 1, n + 2, n + 3, n + 4, e, len, data, rest);
      && x[at + F_NEXT] == e && x[at + F_LENGTH] == len && x[at + F_STATUS] == 1
      && (n + 6 <= |s| ==> x[n] == SEAL && x[n + F_NEXT] == s[at + F_NEXT] && x[n + F_LENGTH] == rest
                           && x[n + F_STATUS] == 0 && x[n + F_DATA] == data)
      && forall w | 0 <= w < |s| && !(at + 1 <= w <= at + 3) && !(n <= w < n + 5) :: x[w] == s[w]
  {
  }

  lemma BehindAt(p: Pool, at: nat, e: u32)
    requires p.Ok() && e % 4 == 0 && p.base + 4 * at + NODE <= e
    ensures at + 6 <= (e - p.base) / 4
  {
  }

  lemma SplitIs(c: seq<u32>, p: Pool, at: nat, len: nat, e: u32)
    requires p.Ok() && at + 6 <= |c| && e % 4 == 0 && p.base + 4 * at + NODE <= e && e + NODE < TWO32
    requires c[at + F_LENGTH] == len
    ensures var x, n := SplitStores(c, p, at, e), (e - p.base) / 4;
      && at + 6 <= n
      && x[at + F_NEXT] == e && x[at + F_LENGTH] == e - (p.base + 4 * at + NODE) && x[at + F_STATUS] == 1
      && (n + 6 <= |c| ==> x[n] == SEAL && x[n + F_NEXT] == c[at + F_NEXT] && x[n + F_STATUS] == 0
                           && x[n + F_LENGTH] == (p.base + 4 * at + len - e) % TWO32 && x[n + F_DATA] == e + NODE)
      && forall w | 0 <= w < |c| && !(at + 1 <= w <= at + 3) && !(n <= w < n + 5) :: x[w] == c[w]
  {
    hide Pokes;
    var n := (e - p.base) / 4;
    IdxInside(p, e, 0);
    IdxInside(p, e, 1);
    IdxInside(p, e, 2);
    IdxInside(p, e, 3);
    IdxInside(p, e, 4);
    var m := p.base + 4 * at;
    BehindAt(p, at, e);
    WrapLow(e - (m + NODE));
    WrapLow(e + NODE);
    hide Idx;
    PokesAt(c, at, n, e, (e - (m + NODE)) % TWO32, (e + NODE) % TWO32, (m + NODE + len - (e + NODE)) % TWO32);
  }

  ghost function Taken(s: seq<u32>, p: Pool, at: nat, d: u32, asked: u32, size: u32): (r: seq<u32>)
    requires at + 6 <= |s| && p.base + 4 * at < TWO32
    ensures |r| == |s|
  {
    var c := Claimed(s, p, at, d);
    if (c[at + F_LENGTH] - asked) % TWO32 < MINBLK then c else SplitStores(c, p, at, (d + size) % TWO32)
  }

  /** The words after node `k` was taken for a request. */
  ghost function TakenFor(s: seq<u32>, p: Pool, bs: seq<Blk>, k: nat, size: u32, pa: u32): (r: seq<u32>)
    requires k < |bs| && pa > 0 && bs[k].at + 6 <= |s| && p.base + 4 * bs[k].at < TWO32
    ensures |r| == |s|
  {
    Taken(s, p, bs[k].at, (DataOf(p, bs[k]) + Pad(DataOf(p, bs[k]), pa)) % TWO32,
          Need32(p, bs[k], Rounded(size), pa), Rounded(size))
  }

  /** `size` bytes, at least one, inside the node. */
  predicate Fulfilled(p: Pool, b: Blk, size: u32, ptr: u32) {
    DataOf(p, b) <= ptr && ptr + (if size == 0 then 1 else size) <= EndOf(p, b)
  }

  /** Both the block and a header split off behind it fit. */
  predicate Good(p: Pool, b: Blk, size: u32, pa: nat)
    requires 0 < pa < TWO32
  {
    HasRoom(p, b, size, pa) && Suits(p, b, Rounded(size), pa, Need32(p, b, Rounded(size), pa))
  }

  /** A true sum below 2^32 never goes wrong. */
  lemma NoWrapGood(p: Pool, b: Blk, size: u32, pa: u32)
    requires pa > 0 && size <= TWO32 - 4 && Need32(p, b, Rounded(size), pa) <= b.len
    requires Need(p, b, Rounded(size), pa) < TWO32
    ensures Good(p, b, size, pa)
  {
    hide Pad, Need, Need32;
    NeedExact(p, b, Rounded(size), pa);
    NeedSuits(p, b, Rounded(size), pa);
  }

  /** The block is where it was promised exactly when there is room. */
  lemma Promise(p: Pool, b: Blk, size: u32, pa: u32, ptr: u32)
    requires p.Ok() && pa > 0 && EndOf(p, b) <= p.base + p.length
    requires ptr == (DataOf(p, b) + Pad(DataOf(p, b), pa)) % TWO32
    ensures Fulfilled(p, b, size, ptr) <==> HasRoom(p, b, size, pa)
  {
    hide Pad;
    var d := DataOf(p, b) + Pad(DataOf(p, b), pa);
    if d >= TWO32 {
      assert ptr == d - TWO32 < DataOf(p, b);
    }
  }

  /** Requests whose sums cannot wrap are served by the first node that is big enough,
      or not at all. */
  lemma SafeRequest(p: Pool, bs: seq<Blk>, size: u32, align: u32)
    requires (align == 0 || PowerOfTwo(align)) && Fits32(size, align)
    ensures var pa, k := PtrAlign(align), FirstFit32(p, bs, Rounded(size), PtrAlign(align));
      k == FirstFit(p, bs, Request(size), pa) && (k < |bs| ==> Good(p, bs[k], size, pa))
  {
    hide Pad, Need32, FirstFit32, FirstFit, Good;
    RoundedExact(size);
    var pa, k := PtrAlign(align), FirstFit32(p, bs, Rounded(size), PtrAlign(align));
    FitsSame(p, bs, Rounded(size), pa);
    if k < |bs| {
      NoWrapGood(p, bs[k], size, pa);
    }
  }

  /** What a request that cannot wrap gets from a node that passes, in numbers: the block
      starts at the first aligned address; the search asks for the size rounded up to words,
      and twice that and the padding if there is any; if 64 bytes or more are left then, the
      rest behind the block becomes a free node with a header of 24 bytes. */
  lemma GrantExact(p: Pool, b: Blk, size: u32, align: u32)
    requires p.Ok() && (align == 0 || PowerOfTwo(align)) && Fits32(size, align) && EndOf(p, b) <= p.base + p.length
    requires Need32(p, b, Rounded(size), PtrAlign(align)) <= b.len
    ensures Suits(p, b, Rounded(size), PtrAlign(align), Need32(p, b, Rounded(size), PtrAlign(align)))
    ensures var r := Place(p, b, Rounded(size), PtrAlign(align), Need32(p, b, Rounded(size), PtrAlign(align)));
      var c := if size == 0 then 4 else (size + 3) / 4 * 4;
      && Fitting(r[0].data, align) && 0 <= r[0].data - (p.base + 4 * b.at + 24) < (if align < 4 then 8 else align)
      && Carved(p, b, r, c, r[0].data - (p.base + 4 * b.at + 24))
  {
    hide PowerOfTwo, Need32, Suits, Good, Carved, Pad, Place;
    AlignChoice(align);
    RoundedExact(size);
    var pa: u32 := PtrAlign(align);
    var sz := Rounded(size);
    NeedNoWrap(p, b, sz, pa);
    NoWrapGood(p, b, size, pa);
    GoodSuits(p, b, size, pa);
    PlaceAligned(p, b, sz, pa, Need(p, b, sz, pa));
    CarvedIs(p, b, sz, pa);
  }

  lemma GoodSuits(p: Pool, b: Blk, size: u32, pa: u32)
    requires pa > 0 && Good(p, b, size, pa)
    ensures Suits(p, b, Rounded(size), pa, Need32(p, b, Rounded(size), pa))
  {
  }

  lemma CarvedIs(p: Pool, b: Blk, sz: nat, pa: nat)
    requires p.Ok() && pa > 0 && pa % 4 == 0 && sz > 0 && sz % 4 == 0 && EndOf(p, b) <= p.base + p.length
    requires Suits(p, b, sz, pa, Need(p, b, sz, pa))
    ensures var r, pad := Place(p, b, sz, pa, Need(p, b, sz, pa)), Pad(DataOf(p, b), pa);
      pad < pa && r[0].data == p.base + 4 * b.at + 24 + pad && Carved(p, b, r, sz, pad)
  {
    PlaceOk(p, b, sz, pa, Need(p, b, sz, pa));
    hide Pad;
  }

  /** The node `b` after a block of `c` bytes was placed in it behind `pad` others. */
  predicate Carved(p: Pool, b: Blk, r: seq<Blk>, c: nat, pad: nat)
    requires |r| == 1 || |r| == 2
  {
    var need := if pad == 0 then c else 2 * c + pad;
    && r[0].alloc && r[0].at == b.at && r[0].data == p.base + 4 * b.at + 24 + pad && need <= b.len
    && if b.len - need < 64 then |r| == 1 && r[0].len == b.len
       else
         && |r| == 2 && r[0].len == pad + c && !r[1].alloc && 4 * r[1].at == 4 * b.at + 24 + pad + c
         && r[1].len == b.len - pad - c - 24
  }

  lemma IdxInside(p: Pool, a: int, j: nat)
    requires p.Ok() && p.base <= a && a % 4 == 0 && a + 4 * j < TWO32
    ensures Idx(p, a + 4 * j) == (a - p.base) / 4 + j
  {
  }

  /** Claiming a node with data inside it. */
  lemma ClaimedRep(m0: seq<u32>, p: Pool, bs: seq<Blk>, k: nat, d: u32)
    requires p.Ok() && Tiled(p, bs) && Rep(m0, p, bs) && k < |bs|
    requires DataInside(p, Blk(bs[k].at, bs[k].len, true, d))
    ensures bs[k].at + 6 <= NextAt(bs[k]) <= |m0| && p.base + 4 * bs[k].at < TWO32
    ensures var c, s := Claimed(m0, p, bs[k].at, d), bs[..k] + [Blk(bs[k].at, bs[k].len, true, d)] + bs[k + 1..];
      && Tiled(p, s) && Rep(c, p, s)
      && forall w | 0 <= w < |m0| && !(bs[k].at <= w < NextAt(bs[k])) :: c[w] == m0[w]
  {
    hide Tiled, Rep, NodeWords;
    NodeRead(m0, p, bs, k);
    Inside(p, bs, k);
    var r := Blk(bs[k].at, bs[k].len, true, d);
    IdxInside(p, d - 4, 0);
    BackInside(p, r);
    hide Idx;
    SubstTiled(p, bs, k, [r]);
    WholeRep(m0, Claimed(m0, p, bs[k].at, d), p, bs, k, r);
  }

  lemma BackInside(p: Pool, r: Blk)
    requires p.Ok() && r.alloc && DataInside(p, r)
    ensures r.at + 5 <= BackAt(p, r) == (r.data - 4 - p.base) / 4 < NextAt(r) && (r.data - 4) % 4 == 0
  {
  }

  /** The split writes the words of the two nodes. */
  lemma SplitWrites(c: seq<u32>, p: Pool, b: Blk, next: int, e: u32)
    requires p.Ok() && e % 4 == 0 && DataOf(p, b) <= e && e + NODE <= EndOf(p, b) < TWO32
    requires b.at + 6 <= (e - p.base) / 4 && (e - p.base) / 4 + 6 <= |c|
    requires c[b.at + F_LENGTH] == b.len && c[b.at + F_NEXT] == next
    ensures CutWrites(c, SplitStores(c, p, b.at, e), p, b, next, e)
  {
    hide SplitStores;
    SplitIs(c, p, b.at, b.len, e);
    WrapLow(EndOf(p, b) - NODE - e);
  }

  lemma SplitRepr(c: seq<u32>, p: Pool, bs: seq<Blk>, k: nat, e: u32)
    requires p.Ok() && Tiled(p, bs) && Rep(c, p, bs) && k < |bs|
    requires bs[k].alloc && e % 4 == 0 && bs[k].data < e && e + NODE <= EndOf(p, bs[k])
    ensures bs[k].at + 6 <= |c| && DataInside(p, bs[k]) && EndOf(p, bs[k]) < TWO32
    ensures var x, s := SplitStores(c, p, bs[k].at, e), bs[..k] + Cut(p, bs[k], e) + bs[k + 1..];
      && Tiled(p, s) && Rep(x, p, s)
      && forall w | 0 <= w < |c| && !(bs[k].at <= w < NextAt(bs[k])) :: x[w] == c[w]
  {
    hide Tiled, Rep, NodeWords, SplitStores, CutWrites;
    NodeRead(c, p, bs, k);
    Inside(p, bs, k);
    CutOk(p, bs[k], e);
    SplitWrites(c, p, bs[k], NextOf(p, bs, k), e);
    CutRep(c, SplitStores(c, p, bs[k].at, e), p, bs, k, e);
  }

  lemma RoomSize(p: Pool, b: Blk, size: u32, pa: u32)
    requires p.Ok() && pa > 0 && EndOf(p, b) <= p.base + p.length && HasRoom(p, b, size, pa)
    ensures size <= TWO32 - 4 && Rounded(size) == Request(size) > 0 && Rounded(size) % 4 == 0
    ensures size <= Rounded(size) < size + 4 || size == 0
    ensures Rounded(size) <= (if size == 0 then 1 else size) + 3
    ensures DataOf(p, b) + Pad(DataOf(p, b), pa) < EndOf(p, b) < TWO32
  {
    hide Pad;
    RoundedExact(size);
  }

  /** Taking a node that suits gives the heap after the allocation. */
  lemma GoodTake(m0: seq<u32>, p: Pool, bs: seq<Blk>, k: nat, size: u32, pa: u32)
    requires p.Ok() && Tiled(p, bs) && NoAdjacentFree(bs) && Rep(m0, p, bs) && k < |bs| && !bs[k].alloc
    requires pa > 0 && pa % 4 == 0 && Good(p, bs[k], size, pa)
    ensures bs[k].at + 6 <= |m0| && p.base + 4 * bs[k].at < TWO32 && EndOf(p, bs[k]) <= p.base + p.length
    ensures var x := TakenFor(m0, p, bs, k, size, pa);
      var s := Allocated(p, bs, k, Rounded(size), pa, Need32(p, bs[k], Rounded(size), pa));
      && Tiled(p, s) && NoAdjacentFree(s) && Rep(x, p, s)
      && forall w | 0 <= w < |m0| && !(bs[k].at <= w < NextAt(bs[k])) :: x[w] == m0[w]
  {
    hide Tiled, Rep, NoAdjacentFree, Need32, Pad, Place, Claimed, SplitStores, Cut, Rounded, Suits, HasRoom, TakenFor;
    var b, sz := bs[k], Rounded(size);
    var asked, d := Need32(p, b, sz, pa), DataOf(p, b) + Pad(DataOf(p, b), pa);
    Inside(p, bs, k);
    RoomSize(p, b, size, pa);
    SuitsAsked(p, b, sz, pa, asked);
    AllocatedOk(p, bs, k, sz, pa, asked);
    PlaceCut(p, b, sz, pa, asked);
    TakenIs(m0, p, bs, k, size, pa);
    var r, c := Blk(b.at, b.len, true, d), Claimed(m0, p, b.at, d);
    var n := bs[..k] + [r] + bs[k + 1..];
    Resubst(bs, k, r, Place(p, b, sz, pa, asked));
    ClaimedRep(m0, p, bs, k, d);
    if b.len - asked >= MINBLK {
      SumFour(d, sz);
      SplitRepr(c, p, n, k, d + sz);
    }
  }

  lemma SuitsAsked(p: Pool, b: Blk, size: nat, pa: nat, asked: nat)
    requires pa > 0 && Suits(p, b, size, pa, asked)
    ensures asked <= b.len
  {
  }

  /** The stores of kmalloc for a block whose data starts inside the node. */
  lemma TakenIs(m0: seq<u32>, p: Pool, bs: seq<Blk>, k: nat, size: u32, pa: u32)
    requires p.Ok() && Tiled(p, bs) && Rep(m0, p, bs) && k < |bs| && pa > 0 && pa % 4 == 0
    requires DataOf(p, bs[k]) + Pad(DataOf(p, bs[k]), pa) < EndOf(p, bs[k])
    requires Need32(p, bs[k], Rounded(size), pa) <= bs[k].len
    ensures bs[k].at + 6 <= |m0| && p.base + 4 * bs[k].at < TWO32 && EndOf(p, bs[k]) < TWO32
    ensures var d := DataOf(p, bs[k]) + Pad(DataOf(p, bs[k]), pa);
      var c, at := Claimed(m0, p, bs[k].at, d), bs[k].at;
      && c[at + F_LENGTH] == bs[k].len
      && TakenFor(m0, p, bs, k, size, pa) ==
           if bs[k].len - Need32(p, bs[k], Rounded(size), pa) < MINBLK then c
           else SplitStores(c, p, at, (d + Rounded(size)) % TWO32)
  {
    hide Tiled, Rep, Need32, Claimed, SplitStores, Rounded, Pad;
    var b := bs[k];
    Inside(p, bs, k);
    DataFour(p, b, pa);
    var d := DataOf(p, b) + Pad(DataOf(p, b), pa);
    SumFour(DataOf(p, b), Pad(DataOf(p, b), pa));
    ClaimedRep(m0, p, bs, k, d);
    var n := bs[..k] + [Blk(b.at, b.len, true, d)] + bs[k + 1..];
    NodeRead(Claimed(m0, p, b.at, d), p, n, k);
    WrapLow(d);
    WrapLow(b.len - Need32(p, b, Rounded(size), pa));
  }

  lemma GoodGrant(p: Pool, bs: seq<Blk>, k: nat, size: u32, pa: u32)
    requires p.Ok() && Tiled(p, bs) && k < |bs| && pa > 0 && pa % 4 == 0 && Good(p, bs[k], size, pa)
    requires EndOf(p, bs[k]) <= p.base + p.length
    ensures var asked, d := Need32(p, bs[k], Rounded(size), pa), DataOf(p, bs[k]) + Pad(DataOf(p, bs[k]), pa);
      var s := Allocated(p, bs, k, Rounded(size), pa, asked);
      && k < |s| && s[k].alloc && s[k].data == d && 0 < d < TWO32 && d % pa == 0 && d + size <= EndOf(p, s[k])
  {
    hide Tiled, Need32, Pad, Place;
    var sz := Rounded(size);
    var asked := Need32(p, bs[k], sz, pa);
    RoomSize(p, bs[k], size, pa);
    PlaceCut(p, bs[k], sz, pa, asked);
    PlaceAligned(p, bs[k], sz, pa, asked);
    PlaceRoom(p, bs[k], sz, pa, asked, size);
  }

  // ----- A header that does not fit

  /** Another list over words that agree up to node `k` walks through the same nodes. */
  lemma {:induction false} SameWalk(m0: seq<u32>, m1: seq<u32>, p: Pool, bs: seq<Blk>, s: seq<Blk>, k: nat, i: nat)
    requires p.Ok() && Tiled(p, bs) && Rep(m0, p, bs) && Tiled(p, s) && Rep(m1, p, s) && i <= k < |bs|
    requires |m1| == |m0| && forall w | 0 <= w < bs[k].at && w < |m0| :: m1[w] == m0[w]
    ensures i < |s| && s[i].at == bs[i].at
    decreases i
  {
    hide Tiled, Rep;
    RootFirst(p, bs);
    RootFirst(p, s);
    if i > 0 {
      SameWalk(m0, m1, p, bs, s, k, i - 1);
      NodeRead(m0, p, bs, i - 1);
      NodeRead(m1, p, s, i - 1);
      Apart(p, bs, i - 1, k);
    }
  }

  /** With room for the block but not for the header, no list of nodes is left. */
  lemma HeapLost(m0: seq<u32>, p: Pool, bs: seq<Blk>, k: nat, size: u32, pa: u32)
    requires p.Ok() && p.base + p.length <= TWO32 - 32 && Tiled(p, bs) && Rep(m0, p, bs) && k < |bs| && !bs[k].alloc
    requires pa > 0 && pa % 4 == 0 && HasRoom(p, bs[k], size, pa) && !Good(p, bs[k], size, pa)
    requires Need32(p, bs[k], Rounded(size), pa) <= bs[k].len
    ensures bs[k].at + 6 <= |m0| && p.base + 4 * bs[k].at < TWO32
    ensures forall s: seq<Blk> | Tiled(p, s) :: !Rep(TakenFor(m0, p, bs, k, size, pa), p, s)
  {
    hide Tiled, Rep, Need32, Claimed, SplitStores, Rounded, TakenFor, Pad;
    var b, sz := bs[k], Rounded(size);
    Inside(p, bs, k);
    RoomSize(p, b, size, pa);
    DataFour(p, b, pa);
    TakenIs(m0, p, bs, k, size, pa);
    var d := DataOf(p, b) + Pad(DataOf(p, b), pa);
    SumFour(DataOf(p, b), Pad(DataOf(p, b), pa));
    SumFour(d, sz);
    ClaimedRep(m0, p, bs, k, d);
    var c, e := Claimed(m0, p, b.at, d), d + sz;
    WrapLow(e);
    forall s: seq<Blk> | Tiled(p, s)
      ensures !Rep(SplitStores(c, p, b.at, e), p, s)
    {
      NoList(m0, c, p, bs, s, k, e);
    }
  }

  /** A split with less than a header behind it: the new node's length wraps. */
  lemma NoList(m0: seq<u32>, c: seq<u32>, p: Pool, bs: seq<Blk>, s: seq<Blk>, k: nat, e: u32)
    requires p.Ok() && Tiled(p, bs) && Rep(m0, p, bs) && k < |bs| && |c| == |m0| && Tiled(p, s)
    requires bs[k].at + 6 <= |c| && c[bs[k].at + F_LENGTH] == bs[k].len && e % 4 == 0 && e + NODE < TWO32
    requires forall w | 0 <= w < |m0| && !(bs[k].at <= w < NextAt(bs[k])) :: c[w] == m0[w]
    requires DataOf(p, bs[k]) <= e && EndOf(p, bs[k]) < e + NODE && e <= EndOf(p, bs[k]) + 3
    ensures !Rep(SplitStores(c, p, bs[k].at, e), p, s)
  {
    hide Tiled, Rep, SplitStores;
    var b := bs[k];
    SplitIs(c, p, b.at, b.len, e);
    var x := SplitStores(c, p, b.at, e);
    if Rep(x, p, s) {
      SameWalk(m0, x, p, bs, s, k, k);
      NodeRead(x, p, s, k);
      NodeRead(x, p, s, k + 1);
      Inside(p, s, k + 1);
      WrapNegative(EndOf(p, b) - NODE - e);
    }
  }

  lemma WrapNegative(x: int)
    requires -TWO32 <= x < 0
    ensures x % TWO32 == x + TWO32
  {
  }

  class KMem {
    const pool: Pool
    const mem: array<u32>
    ghost var bs: seq<Blk>

    /** Well formed, but possibly with free neighbours. */
    ghost predicate Loose()
      reads this, mem
    {
      pool.Ok() && mem.Length == pool.length / 4 && Tiled(pool, bs) && Rep(mem[..], pool, bs)
    }

    ghost predicate Valid()
      reads this, mem
    {
      Loose() && NoAdjacentFree(bs)
    }

    function Word(addr: int): int {
      (addr - pool.base) / 4
    }

    /** kmeminit: one free node over the whole buffer. */
    constructor (base: u32, length: nat, buffer: array<u32>)
      requires Pool(base, length).Ok() && buffer.Length == length / 4
      modifies buffer
      ensures Valid() && pool == Pool(base, length) && mem == buffer
      ensures bs == [Blk(0, length - NODE, false, base + NODE)]
    {
      pool := Pool(base, length);
      mem := buffer;
      bs := [Blk(0, length - NODE, false, base + NODE)];
      new;
      mem[F_SEAL] := SEAL;
      mem[F_LENGTH] := length - NODE;
      mem[F_DATA] := base + NODE;
      mem[F_STATUS] := 0;
      mem[F_NEXT] := 0;
    }

    /** Joins the free node at word `at` with its free successor. */
    method MergeNext(at: nat, ghost i: nat)
      requires Loose() && i + 1 < |bs| && at == bs[i].at && !bs[i].alloc && !bs[i + 1].alloc
      modifies this, mem
      ensures Loose() && bs == MergedAt(old(bs), i)
      ensures forall w | 0 <= w < mem.Length && !(at <= w < NextAt(old(bs)[i + 1])) :: mem[w] == old(mem[w])
    {
      hide Tiled, Rep, NodeWords, MergedAt;
      NodeRead(mem[..], pool, bs, i);
      NodeRead(mem[..], pool, bs, i + 1);
      MergeFits(pool, bs, i);
      MergeTiled(pool, bs, i);
      ghost var was := mem[..];
      var next := Word(mem[at + F_NEXT]);
      mem[at + F_LENGTH] := mem[at + F_LENGTH] + NODE + mem[next + F_LENGTH];
      mem[next + F_SEAL] := 0;
      mem[at + F_NEXT] := mem[next + F_NEXT];
      MergeRep(was, mem[..], pool, bs, i);
      MergedAtIs(bs, i);
      bs := MergedAt(bs, i);
    }

    /** What the sweep does at one node; returns the node to go on with. */
    method CompactStep(m: u32, ghost i: nat) returns (next: u32, merged: nat)
      requires Loose() && i < |bs| && m == pool.base + 4 * bs[i].at
      modifies this, mem
      ensures Loose() && i < |bs| && next == NextOf(pool, bs, i)
      ensures merged == if i + 1 < |old(bs)| && !old(bs)[i].alloc && !old(bs)[i + 1].alloc then 1 else 0
      ensures merged == 0 ==> bs == old(bs) && mem[..] == old(mem[..])
      ensures merged == 1 ==> i + 1 < |old(bs)| && bs == MergedAt(old(bs), i)
      ensures merged == 1 ==>
        forall w | 0 <= w < mem.Length && !(old(bs)[i].at <= w < NextAt(old(bs)[i + 1])) :: mem[w] == old(mem[w])
    {
      hide Tiled, Rep, NodeWords, MergedAt;
      var at := Word(m);
      NodeRead(mem[..], pool, bs, i);
      if i + 1 < |bs| {
        NodeRead(mem[..], pool, bs, i + 1);
      }
      merged := 0;
      if mem[at + F_NEXT] != 0 && mem[at + F_STATUS] == 0 && mem[Word(mem[at + F_NEXT]) + F_STATUS] == 0 {
        MergedAtIs(bs, i);
        MergeNext(at, i);
        merged := 1;
      }
      NodeRead(mem[..], pool, bs, i);
      next := mem[at + F_NEXT];
    }

    /** One sweep of kmemcompact. */
    method CompactPass() returns (compacted: nat)
      requires Loose()
      modifies this, mem
      ensures Loose() && bs == Pass(old(bs)) && compacted == |old(bs)| - |bs|
      ensures LiveSame(old(mem[..]), mem[..], bs)
    {
      hide Tiled, Rep, NodeWords, LiveSame, Pass, MergedAt;
      compacted := 0;
      var m: u32 := pool.base;
      ghost var i := 0;
      LiveRefl(mem[..], bs);
      RootFirst(pool, bs);
      NodeRead(mem[..], pool, bs, 0);
      assert bs[0..] == bs;
      while m != 0 && mem[Word(m)] == SEAL
        invariant Loose() && i <= |bs|
        invariant m == if i < |bs| then pool.base + 4 * bs[i].at else 0
        invariant i < |bs| ==> bs[i].at < mem.Length && mem[bs[i].at] == SEAL
        invariant bs[..i] + Pass(bs[i..]) == Pass(old(bs))
        invariant compacted == |old(bs)| - |bs|
        invariant LiveSame(old(mem[..]), mem[..], bs)
        decreases |bs| - i
      {
        ghost var was, s := mem[..], bs;
        MergeStep(bs, i, Pass(old(bs)));
        var merged;
        m, merged := CompactStep(m, i);
        if merged == 1 {
          MergeLive(old(mem[..]), was, mem[..], pool, s, i);
          MergedAtIs(s, i);
        }
        compacted := compacted + merged;
        i := i + 1;
        if i < |bs| {
          NodeRead(mem[..], pool, bs, i);
        }
      }
      assert bs[..i] == bs && bs[i..] == [];
      PassNil();
    }

    /** kmemcompact: sweeps until one of them merges nothing. */
    method Compact()
      requires Loose()
      modifies this, mem
      ensures Valid() && bs == Coalesce(old(bs))
      ensures LiveSame(old(mem[..]), mem[..], bs)
    {
      hide Tiled, Rep, LiveSame, Pass, Coalesce, NoAdjacentFree;
      PassCoalesce(bs);
      var compacted := CompactPass();
      while compacted > 0
        invariant Loose() && Coalesce(bs) == Coalesce(old(bs))
        invariant compacted == 0 ==> NoAdjacentFree(bs)
        invariant LiveSame(old(mem[..]), mem[..], bs)
        decreases |bs| + compacted
      {
        ghost var was, s := mem[..], bs;
        PassCoalesce(bs);
        compacted := CompactPass();
        LiveTrans(old(mem[..]), was, mem[..], s);
      }
      CoalesceIdle(bs);
    }

    // ----- kfree

    ghost predicate Live(ptr: int)
      reads this
    {
      exists k | 0 <= k < |bs| :: bs[k].alloc && bs[k].data == ptr
    }

    /** kfree. A pointer outside the pool is ignored; one inside must be live. */
    method Kfree(ptr: u32)
      requires Valid()
      requires pool.base <= ptr < pool.base + pool.length ==> Live(ptr)
      modifies this, mem
      ensures Valid() && bs == Coalesce(Released(old(bs), ptr))
      ensures LiveOf(bs) == (set b | b in LiveOf(old(bs)) && b.data != ptr)
      ensures forall b | b in LiveOf(bs) :: Untouched(old(mem[..]), mem[..], b)
      ensures !(pool.base <= ptr < pool.base + pool.length) ==> bs == old(bs) && mem[..] == old(mem[..])
    {
      hide Tiled, Rep, NodeWords, LiveSame, Coalesce, Released, NoAdjacentFree, Untouched, LiveOf;
      ReleasedKeeps(bs, ptr);
      CoalesceKeeps(Released(bs, ptr));
      if ptr < pool.base || ptr >= pool.base + pool.length {
        ReleasedNone(pool, bs, ptr);
        CoalesceIdle(bs);
        LiveRefl(mem[..], bs);
        LiveUntouched(mem[..], mem[..], bs);
        return;
      }
      ghost var k :| 0 <= k < |bs| && bs[k].alloc && bs[k].data == ptr;
      BackPointer(mem[..], pool, bs, k);
      NodeRead(mem[..], pool, bs, k);
      var m := mem[Word(ptr) - 1];
      if mem[Word(m)] == SEAL {
        ghost var was := mem[..];
        mem[Word(m) + F_STATUS] := 0;
        ReleaseRep(was, mem[..], pool, bs, k);
        ReleasedLive(was, mem[..], pool, bs, k);
        bs := Released(bs, ptr);
        ghost var mid, s := mem[..], bs;
        Compact();
        LiveCoalesce(was, mid, mem[..], s);
        LiveUntouched(was, mem[..], bs);
      }
    }

    // ----- kmalloc

    /** Payload address of node `b`, and the bytes the search asks of it. */
    method Padded(m: u32, size: u32, pa: u32, ghost b: Blk) returns (daddr: u32, realsize: u32)
      requires pa > 0 && m == pool.base + 4 * b.at && DataOf(pool, b) < TWO32
      ensures daddr == DataOf(pool, b) && realsize == Need32(pool, b, size, pa)
    {
      daddr := m + NODE;
      var extra: u32 := 0;
      if daddr % pa != 0 {
        extra := (size + (pa - daddr % pa)) % TWO32;
      }
      realsize := (size + extra) % TWO32;
    }

    /** The search: first free node with room for the padded request. */
    method Search(size: u32, pa: u32) returns (m: u32, daddr: u32, realsize: u32, ghost k: nat)
      requires Loose() && pa > 0
      ensures k == FirstFit32(pool, bs, size, pa)
      ensures m == if k < |bs| then pool.base + 4 * bs[k].at else 0
      ensures k < |bs| ==> daddr == DataOf(pool, bs[k]) && realsize == Need32(pool, bs[k], size, pa)
    {
      hide Tiled, Rep, NodeWords, Need32, FirstFit32;
      m, daddr, realsize, k := pool.base, 0, 0, 0;
      RootFirst(pool, bs);
      NodeRead(mem[..], pool, bs, 0);
      var found := false;
      while m != 0 && !found
        invariant k <= |bs| && m == if k < |bs| then pool.base + 4 * bs[k].at else 0
        invariant forall i | 0 <= i < k :: bs[i].alloc || bs[i].len < Need32(pool, bs[i], size, pa)
        invariant found ==> k < |bs| && !bs[k].alloc && realsize <= bs[k].len
        invariant found ==> daddr == DataOf(pool, bs[k]) && realsize == Need32(pool, bs[k], size, pa)
        decreases |bs| - k, !found
      {
        NodeRead(mem[..], pool, bs, k);
        Inside(pool, bs, k);
        var at := Word(m);
        if mem[at + F_STATUS] == 1 {
          m, k := mem[at + F_NEXT], k + 1;
        } else {
          daddr, realsize := Padded(m, size, pa, bs[k]);
          if mem[at + F_LENGTH] < realsize {
            m, k := mem[at + F_NEXT], k + 1;
          } else {
            found := true;
          }
        }
      }
      FirstFitIs(pool, bs, size, pa, k);
    }

    /** A store to any address; only those to the pool show. */
    method Store(addr: int, v: u32)
      requires pool.Ok() && mem.Length == pool.length / 4
      modifies mem
      ensures mem[..] == Poke(old(mem[..]), Idx(pool, addr), v)
    {
      var w := Idx(pool, addr);
      if 0 <= w < mem.Length {
        mem[w] := v;
      }
    }

    /** Marks the node at `m` live with its data at `d`, leaves the back pointer, and
        splits off what is behind unless too little is left. */
    method Take(m: u32, d: u32, realsize: u32, size: u32, ghost at: nat)
      requires pool.Ok() && mem.Length == pool.length / 4 && at + 6 <= mem.Length && m == pool.base + 4 * at
      modifies mem
      ensures mem[..] == Taken(old(mem[..]), pool, at, d, realsize, size)
    {
      hide Poke, Idx;
      var w := Word(m);
      mem[w + F_DATA] := d;
      mem[w + F_STATUS] := 1;
      Store(d - 4, m);
      assert mem[..] == Claimed(old(mem[..]), pool, at, d);
      if (mem[w + F_LENGTH] - realsize) % TWO32 < MINBLK {
        return;
      }
      Split(m, (d + size) % TWO32, at);
    }

    method Split(m: u32, e: u32, ghost at: nat)
      requires pool.Ok() && mem.Length == pool.length / 4 && at + 6 <= mem.Length && m == pool.base + 4 * at
      modifies mem
      ensures mem[..] == SplitStores(old(mem[..]), pool, at, e)
    {
      hide Poke, Idx;
      var w := Word(m);
      var blkend := m + NODE + mem[w + F_LENGTH];
      Store(e + 4, mem[w + F_NEXT]);
      mem[w + F_LENGTH] := (e - (m + NODE)) % TWO32;
      mem[w + F_NEXT] := e;
      mem[w + F_STATUS] := 1;
      Store(e, SEAL);
      Store(e + 16, (e + NODE) % TWO32);
      Store(e + 8, (blkend - (e + NODE)) % TWO32);
      Store(e + 12, 0);
    }

    /** Rounds an address up to the alignment, as kmalloc does it. */
    method AlignData(daddr: u32, pa: u32) returns (d: u32)
      requires PowerOfTwo(pa) && pa > 0
      ensures d == (daddr + Pad(daddr, pa)) % TWO32 && d % pa == 0
    {
      hide PowerOfTwo, Pad;
      PadZero(daddr, pa);
      d := daddr;
      if daddr % pa != 0 {
        AlignStep(daddr, pa);
        MultipleMod((daddr + pa) % TWO32 / pa, pa);
        d := (daddr + pa) % TWO32 / pa * pa;
      }
    }

    /** What a successful call leaves behind. */
    ghost predicate Grants(s: seq<Blk>, k: nat, size: u32, pa: u32, ptr: u32)
      requires pool.Ok() && pa > 0 && k < |s|
      reads this
    {
      var asked := Need32(pool, s[k], Rounded(size), pa);
      && Suits(pool, s[k], Rounded(size), pa, asked) && EndOf(pool, s[k]) <= pool.base + pool.length
      && bs == Allocated(pool, s, k, Rounded(size), pa, asked)
      && k < |bs| && bs[k].alloc && ptr == bs[k].data && ptr != 0 && ptr % pa == 0 && ptr + size <= EndOf(pool, bs[k])
    }

    /** kmalloc, for every request. The first node `k` that passes the test decides:
        the block has the requested size exactly when it fits behind the padding, and the
        heap is well formed after that exactly when a header split off fits too. */
    method Kmalloc(size: u32, align: u32) returns (ptr: u32)
      requires Valid() && (align == 0 || PowerOfTwo(align))
      modifies this, mem
      ensures var k := FirstFit32(pool, old(bs), Rounded(size), PtrAlign(align));
        && (k == |old(bs)| ==> ptr == 0 && Valid() && bs == old(bs) && mem[..] == old(mem[..]))
        && (k < |old(bs)| ==> Outcome(old(mem[..]), old(bs), k, size, PtrAlign(align), ptr))
      ensures Fitting(ptr, align)
    {
      hide Tiled, Rep, Suits, HasRoom, Need32, FirstFit32, Pad, NoAdjacentFree, PowerOfTwo, Taken, Rounded, Outcome;
      var pa: u32 := if align < 4 then 8 else align;
      var sz: u32 := Rounded(size);
      AlignChoice(align);
      var m, daddr, realsize, k := Search(sz, pa);
      if m == 0 {
        return 0;
      }
      ghost var was, s := mem[..], bs;
      NodeRead(mem[..], pool, bs, k);
      Inside(pool, bs, k);
      ptr := AlignData(daddr, pa);
      Take(m, ptr, realsize, sz, bs[k].at);
      assert mem[..] == TakenFor(was, pool, s, k, size, pa);
      if Good(pool, s[k], size, pa) {
        GoodTake(was, pool, s, k, size, pa);
        bs := Allocated(pool, s, k, sz, pa, realsize);
      }
      Decided(was, s, k, size, pa, ptr);
    }

    /** Whether a request is going to be served well or refused. */
    method Foresee(size: u32, align: u32) returns (good: bool)
      requires Loose() && (align == 0 || PowerOfTwo(align))
      ensures var k := FirstFit32(pool, bs, Rounded(size), PtrAlign(align));
        good <==> (k < |bs| ==> Good(pool, bs[k], size, PtrAlign(align)))
    {
      hide Tiled, Rep, Need32, FirstFit32, Pad, PowerOfTwo, Rounded;
      var pa: u32 := if align < 4 then 8 else align;
      AlignChoice(align);
      var m, daddr, realsize, k := Search(Rounded(size), pa);
      if m == 0 {
        return true;
      }
      NodeRead(mem[..], pool, bs, k);
      var pad, len := Pad(daddr, pa), mem[Word(m) + F_LENGTH];
      good := && pad + (if size == 0 then 1 else size) <= len && realsize <= len && pad < len
              && (len - realsize >= MINBLK ==> pad + Rounded(size) + NODE <= len);
    }

    /** After a call that used node `k`: the promise is kept exactly when there is room,
        and what it leaves is a heap exactly when the node suits. */
    ghost predicate Outcome(m0: seq<u32>, s: seq<Blk>, k: nat, size: u32, pa: nat, ptr: u32)
      requires k < |s| && 0 < pa < TWO32 && pool.Ok()
      reads this, mem
    {
      var b := s[k];
      var d := DataOf(pool, b) + Pad(DataOf(pool, b), pa);
      && ptr == d % TWO32
      && (Fulfilled(pool, b, size, ptr) <==> HasRoom(pool, b, size, pa))
      && (Good(pool, b, size, pa) ==>
            && Valid() && Grants(s, k, size, pa, ptr) && LiveOf(bs) == LiveOf(s) + {bs[k]} && bs[k] !in LiveOf(s)
            && (forall x | x in LiveOf(s) :: Untouched(m0, mem[..], x))
            && forall w | 0 <= w < |m0| && w < mem.Length && !(b.at <= w < NextAt(b)) :: mem[w] == m0[w])
      && (HasRoom(pool, b, size, pa) && pool.base + pool.length <= TWO32 - 32 ==>
            ((exists n: seq<Blk> :: Tiled(pool, n) && Rep(mem[..], pool, n)) <==> Good(pool, b, size, pa)))
    }

    lemma Decided(m0: seq<u32>, s: seq<Blk>, k: nat, size: u32, pa: u32, ptr: u32)
      requires pool.Ok() && Tiled(pool, s) && Rep(m0, pool, s) && k < |s| && !s[k].alloc
      requires mem.Length == pool.length / 4
      requires pa > 0 && pa % 4 == 0 && Need32(pool, s[k], Rounded(size), pa) <= s[k].len
      requires ptr == (DataOf(pool, s[k]) + Pad(DataOf(pool, s[k]), pa)) % TWO32
      requires mem[..] == TakenFor(m0, pool, s, k, size, pa)
      requires Good(pool, s[k], size, pa) ==>
        && Loose() && NoAdjacentFree(bs) && Suits(pool, s[k], Rounded(size), pa, Need32(pool, s[k], Rounded(size), pa))
        && EndOf(pool, s[k]) <= pool.base + pool.length
        && bs == Allocated(pool, s, k, Rounded(size), pa, Need32(pool, s[k], Rounded(size), pa))
        && forall w | 0 <= w < |m0| && !(s[k].at <= w < NextAt(s[k])) :: mem[..][w] == m0[w]
      ensures Outcome(m0, s, k, size, pa, ptr)
    {
      hide Tiled, Rep, Suits, Need32, Pad, NoAdjacentFree, Rounded, Allocated, Good, HasRoom, Fulfilled, TakenFor;
      hide LiveOf, Untouched;
      var b := s[k];
      Inside(pool, s, k);
      Promise(pool, b, size, pa, ptr);
      if Good(pool, b, size, pa) {
        GoodGrant(pool, s, k, size, pa);
        AllocatedLive(pool, s, k, Rounded(size), pa, Need32(pool, b, Rounded(size), pa));
        OthersUntouched(m0, mem[..], pool, s, k);
        WrapLow(DataOf(pool, b) + Pad(DataOf(pool, b), pa));
        assert Tiled(pool, bs) && Rep(mem[..], pool, bs);
      } else if HasRoom(pool, b, size, pa) && pool.base + pool.length <= TWO32 - 32 {
        HeapLost(m0, pool, s, k, size, pa);
      }
    }

    // ----- kmemstats

    /** A header lies at `m`, and its back pointer, if any, inside the pool. */
    ghost predicate Readable(m: u32)
      reads mem
    {
      && 0 <= Word(m) && Word(m) + 6 <= mem.Length
      && (mem[Word(m) + F_STATUS] == 1 ==> 1 <= Word(mem[Word(m) + F_DATA]) <= mem.Length)
    }

    /** The consistency tests kmemstats makes at one node. */
    predicate Consistent(m: u32)
      requires Readable(m)
      reads mem
    {
      var at := Word(m);
      && mem[at + F_SEAL] == SEAL
      && (mem[at + F_NEXT] != 0 ==> m + NODE + mem[at + F_LENGTH] == mem[at + F_NEXT] && m <= mem[at + F_NEXT])
      && m <= mem[at + F_DATA]
      && (mem[at + F_STATUS] == 1 ==> mem[Word(mem[at + F_DATA]) - 1] == m)
    }

    /** kmemstats on a well-formed pool: consistent, and nothing is lost. */
    method Kmemstats() returns (rc: int, st: Stats)
      requires Loose()
      ensures rc == 0
      ensures st.allocNodes == Nodes(bs, true) && st.freeNodes == Nodes(bs, false)
      ensures st.allocBytes == Bytes(bs, true) && st.freeBytes == Bytes(bs, false)
      ensures st.total == pool.length == st.allocBytes + st.freeBytes + NODE * (st.allocNodes + st.freeNodes)
      ensures IsLargest(bs, st.largest)
    {
      hide Tiled, Rep, NodeWords, IsLargest, Consistent;
      st := Stats(pool.length, 0, 0, 0, 0, 0);
      var m, ok := pool.base, true;
      ghost var i := 0;
      RootFirst(pool, bs);
      NoLargest();
      while m != 0 && ok
        invariant ok && i <= |bs| && m == if i < |bs| then pool.base + 4 * bs[i].at else 0
        invariant st.total == pool.length && IsLargest(bs[..i], st.largest)
        invariant st.allocNodes == Nodes(bs[..i], true) && st.freeNodes == Nodes(bs[..i], false)
        invariant st.allocBytes == Bytes(bs[..i], true) && st.freeBytes == Bytes(bs[..i], false)
        decreases |bs| - i
      {
        var at := Word(m);
        NodeRead(mem[..], pool, bs, i);
        NodeConsistent(m, i);
        assert bs[..i + 1][..i] == bs[..i];
        LargestStep(bs, i, st.largest);
        if mem[at + F_STATUS] != 0 {
          st := st.(allocNodes := st.allocNodes + 1, allocBytes := st.allocBytes + mem[at + F_LENGTH]);
        } else {
          st := st.(freeNodes := st.freeNodes + 1, freeBytes := st.freeBytes + mem[at + F_LENGTH],
                    largest := if mem[at + F_LENGTH] > st.largest then mem[at + F_LENGTH] else st.largest);
        }
        ok := Consistent(m);
        m, i := mem[at + F_NEXT], i + 1;
      }
      assert bs[..i] == bs;
      Conserved(pool, bs, |bs|);
      WholePool(pool, bs);
      rc := if ok then 0 else -1;
    }

    lemma NodeConsistent(m: u32, i: nat)
      requires Loose() && i < |bs| && m == pool.base + 4 * bs[i].at
      ensures Readable(m) && Consistent(m)
    {
      hide Tiled, Rep, NodeWords;
      NodeRead(mem[..], pool, bs, i);
      Inside(pool, bs, i);
      NextAligned(pool, bs, i);
      if bs[i].alloc {
        BackPointer(mem[..], pool, bs, i);
      }
    }
  }
}
