/** nocfe/lib_malloc.c: a first-fit allocator over one flat buffer, with its node
    headers inside the buffer. Addresses are 32 bits wide, nodes are 24 bytes. The
    buffer is an array of 4-byte words; word `i` has address `base + 4 * i`. */
module Heap {
  import opened Memory


  const SEAL: u32 := 0xFAAF_A123
  const NODE: nat := 24 // sizeof(memnode_t)
  const MINBLK: nat := 64

  // Word offsets of the header fields
  const F_SEAL: nat := 0
  const F_NEXT: nat := 1
  const F_LENGTH: nat := 2
  const F_STATUS: nat := 3
  const F_DATA: nat := 4

  /** A node: word index of its header, payload length in bytes, status, and the
      data address its header records. */
  datatype Blk = Blk(at: nat, len: nat, alloc: bool, data: u32)

  datatype Pool = Pool(base: u32, length: nat) {
    /** The buffer kmeminit is given: pointer-aligned, not at address 0, big enough
        for one node, and inside the address space. */
    ghost predicate Ok() {
      0 < base && base % 4 == 0 && NODE <= length && base + length < TWO32
    }
  }

  /** First payload address, and first address after the payload. */
  function DataOf(p: Pool, b: Blk): int {
    p.base + 4 * b.at + NODE
  }

  function EndOf(p: Pool, b: Blk): int {
    p.base + 4 * b.at + NODE + b.len
  }

  /** First word after the node. */
  function NextAt(b: Blk): nat {
    b.at + 6 + b.len / 4
  }

  /** The nodes tile the buffer exactly. */
  ghost predicate Tiled(p: Pool, bs: seq<Blk>) {
    && bs != [] && bs[0].at == 0
    && (forall i | 0 <= i < |bs| - 1 :: bs[i].len % 4 == 0 && bs[i + 1].at == NextAt(bs[i]))
    && EndOf(p, bs[|bs| - 1]) == p.base + p.length
    && (forall i | 0 <= i < |bs| :: DataInside(p, bs[i]))
  }

  /** The recorded data address lies in the payload; a live block is not empty. */
  ghost predicate DataInside(p: Pool, b: Blk) {
    DataOf(p, b) <= b.data <= EndOf(p, b) && b.data % 4 == 0 && (b.alloc ==> b.data < EndOf(p, b))
  }

  ghost predicate NoAdjacentFree(bs: seq<Blk>) {
    forall i | 0 <= i < |bs| - 1 :: bs[i].alloc || bs[i + 1].alloc
  }

  /** Successive nodes do not overlap. */
  lemma {:induction false} Apart(p: Pool, bs: seq<Blk>, i: nat, j: nat)
    requires Tiled(p, bs) && i < j < |bs|
    ensures NextAt(bs[i]) <= bs[j].at && EndOf(p, bs[i]) <= p.base + 4 * bs[j].at
    decreases j - i
  {
    if i + 1 < j {
      Apart(p, bs, i + 1, j);
    }
  }

  lemma InPool(p: Pool, bs: seq<Blk>, i: nat)
    requires Tiled(p, bs) && i < |bs|
    ensures EndOf(p, bs[i]) <= p.base + p.length
  {
    if i < |bs| - 1 {
      Apart(p, bs, i, |bs| - 1);
    }
  }

  /** Live blocks never share an address. */
  lemma LiveDisjoint(p: Pool, bs: seq<Blk>, i: nat, j: nat)
    requires Tiled(p, bs) && i < |bs| && j < |bs| && i != j
    ensures p.base <= bs[i].data <= EndOf(p, bs[i]) <= p.base + p.length
    ensures EndOf(p, bs[i]) <= bs[j].data || EndOf(p, bs[j]) <= bs[i].data
  {
    InPool(p, bs, i);
    if i < j {
      Apart(p, bs, i, j);
    } else {
      Apart(p, bs, j, i);
    }
  }

  // ----- Compaction

  function Merge(a: Blk, b: Blk): Blk {
    Blk(a.at, a.len + NODE + b.len, false, a.data)
  }

  /** One pass of kmemcompact: a merged node is not merged again in the same pass. */
  function Pass(bs: seq<Blk>): (r: seq<Blk>)
    ensures |r| <= |bs| && (bs != [] ==> r != [])
    decreases |bs|
  {
    if |bs| <= 1 then bs
    else if !bs[0].alloc && !bs[1].alloc then [Merge(bs[0], bs[1])] + Pass(bs[2..])
    else [bs[0]] + Pass(bs[1..])
  }

  /** The result of compaction: every maximal run of free nodes is one node. */
  function Coalesce(bs: seq<Blk>): (r: seq<Blk>)
    ensures bs != [] ==> r != [] && r[0].at == bs[0].at && (bs[0].alloc ==> r[0] == bs[0]) && r[0].alloc == bs[0].alloc
  {
    if |bs| <= 1 then bs
    else
      var r := Coalesce(bs[1..]);
      if !bs[0].alloc && !r[0].alloc then [Merge(bs[0], r[0])] + r[1..]
      else [bs[0]] + r
  }

  lemma {:induction false} CoalesceIdle(bs: seq<Blk>)
    requires NoAdjacentFree(bs)
    ensures Coalesce(bs) == bs
  {
    if |bs| > 1 {
      CoalesceIdle(bs[1..]);
      assert bs == [bs[0]] + bs[1..];
      assert bs[0].alloc || bs[0 + 1].alloc;
    }
  }

  lemma MergeAssoc(a: Blk, b: Blk, c: Blk)
    ensures Merge(Merge(a, b), c) == Merge(a, Merge(b, c))
  {
  }

  /** Merging the first two free nodes does not change what compaction gives. */
  lemma CoalesceMerge(bs: seq<Blk>)
    requires |bs| >= 2 && !bs[0].alloc && !bs[1].alloc
    ensures Coalesce([Merge(bs[0], bs[1])] + bs[2..]) == Coalesce(bs)
  {
    var m := [Merge(bs[0], bs[1])] + bs[2..];
    assert m[1..] == bs[2..] && bs[1..][1..] == bs[2..];
    if |bs| > 2 {
      var r := Coalesce(bs[2..]);
      if !r[0].alloc {
        MergeAssoc(bs[0], bs[1], r[0]);
      } else {
        assert Coalesce(bs[1..]) == [bs[1]] + r && ([bs[1]] + r)[1..] == r;
      }
    } else {
      assert bs[1..] == [bs[1]] && bs[2..] == [];
    }
  }

  lemma CoalesceHead(a: Blk, x: seq<Blk>, y: seq<Blk>)
    requires Coalesce(x) == Coalesce(y) && (x == [] <==> y == [])
    ensures Coalesce([a] + x) == Coalesce([a] + y)
  {
    assert ([a] + x)[1..] == x && ([a] + y)[1..] == y;
  }

  /** A pass keeps the result, and a pass that merges nothing is the last. */
  lemma {:induction false} PassCoalesce(bs: seq<Blk>)
    ensures Coalesce(Pass(bs)) == Coalesce(bs)
    ensures |Pass(bs)| == |bs| ==> Pass(bs) == bs && NoAdjacentFree(bs)
    decreases |bs|
  {
    if |bs| > 1 {
      if !bs[0].alloc && !bs[1].alloc {
        PassCoalesce(bs[2..]);
        CoalesceHead(Merge(bs[0], bs[1]), Pass(bs[2..]), bs[2..]);
        CoalesceMerge(bs);
      } else {
        PassCoalesce(bs[1..]);
        CoalesceHead(bs[0], Pass(bs[1..]), bs[1..]);
        assert bs == [bs[0]] + bs[1..];
        if |Pass(bs)| == |bs| {
          forall i | 0 <= i < |bs| - 1
            ensures bs[i].alloc || bs[i + 1].alloc
          {
            if i > 0 {
              assert bs[1..][i - 1].alloc || bs[1..][i - 1 + 1].alloc;
            }
          }
        }
      }
    }
  }

  /** Merging two neighbouring free nodes keeps the tiling. */
  lemma MergeTiled(p: Pool, bs: seq<Blk>, i: nat)
    requires Tiled(p, bs) && i + 1 < |bs|
    ensures Tiled(p, bs[..i] + [Merge(bs[i], bs[i + 1])] + bs[i + 2..])
  {
    var m := Merge(bs[i], bs[i + 1]);
    var r := bs[..i] + [m] + bs[i + 2..];
    assert bs[i].len % 4 == 0 && bs[i + 1].at == NextAt(bs[i]);
    assert EndOf(p, m) == EndOf(p, bs[i + 1]);
    forall j | 0 <= j < |r| - 1
      ensures r[j].len % 4 == 0 && r[j + 1].at == NextAt(r[j])
    {
      if j < i {
        assert bs[j].len % 4 == 0 && bs[j + 1].at == NextAt(bs[j]);
      } else if j == i {
        assert bs[i + 1].len % 4 == 0 && bs[i + 1 + 1].at == NextAt(bs[i + 1]);
      } else {
        assert bs[j + 1].len % 4 == 0 && bs[j + 1 + 1].at == NextAt(bs[j + 1]);
      }
    }
    assert forall j | 0 <= j < |r| :: r[j] == if j < i then bs[j] else if j == i then m else bs[j + 1];
  }

  /** Freeing everything leaves the single node that kmeminit built. */
  lemma AllFree(p: Pool, bs: seq<Blk>)
    requires Tiled(p, bs) && NoAdjacentFree(bs) && forall i | 0 <= i < |bs| :: !bs[i].alloc
    ensures |bs| == 1 && bs[0].at == 0 && bs[0].len == p.length - NODE && DataInside(p, bs[0])
  {
    if |bs| > 1 {
      FirstTwo(bs);
    }
  }

  lemma FirstTwo(bs: seq<Blk>)
    requires NoAdjacentFree(bs) && |bs| > 1
    ensures bs[0].alloc || bs[1].alloc
  {
    assert bs[0].alloc || bs[0 + 1].alloc;
  }

  // ----- Allocation

  predicate PowerOfTwo(n: nat) {
    n == 1 || (n > 0 && n % 2 == 0 && PowerOfTwo(n / 2))
  }

  lemma PowerMultiple(n: nat)
    requires PowerOfTwo(n) && n >= 4
    ensures n % 4 == 0
  {
    assert PowerOfTwo(n / 2) && n / 2 % 2 == 0;
  }

  /** The alignment used: at least a pointer's; small requests get eight bytes. */
  function PtrAlign(align: nat): nat {
    if align < 4 then 8 else align
  }

  /** The request rounded up to whole pointers. */
  function Request(size: nat): nat {
    if size == 0 then 4 else (size + 3) / 4 * 4
  }

  /** The same in 32-bit arithmetic. */
  function Rounded(size: u32): u32 {
    var s := if size == 0 then 4 else size;
    if s % 4 == 0 then s else (s + 4) % TWO32 / 4 * 4
  }

  lemma RoundedExact(size: u32)
    ensures Rounded(size) == Request(size) <==> size <= TWO32 - 4
  {
    if size > 0 && size % 4 != 0 {
      assert (size + 3) / 4 == (size + 4) / 4;
    }
  }

  /** No sum of the search leaves 32 bits, whatever node it looks at. */
  predicate Fits32(size: u32, align: u32) {
    2 * Request(size) + PtrAlign(align) <= TWO32
  }

  /** Bytes from `a` to the next multiple of `n`. */
  function Pad(a: nat, n: nat): (r: nat)
    requires n > 0
    ensures r < n
  {
    if a % n == 0 then 0 else n - a % n
  }

  /** What the search asks of a node: the size, and once more the size and the
      padding when the payload is not aligned. */
  function Need(p: Pool, b: Blk, size: nat, pa: nat): nat
    requires pa > 0
  {
    var pad := Pad(DataOf(p, b), pa);
    if pad == 0 then size else size + (size + pad)
  }

  /** The same sum as the source computes it, modulo 2^32. */
  function Need32(p: Pool, b: Blk, size: u32, pa: u32): u32
    requires pa > 0
  {
    var extra := if DataOf(p, b) % pa == 0 then 0 else (size + (pa - DataOf(p, b) % pa)) % TWO32;
    (size + extra) % TWO32
  }

  /** The computed sum is the true one exactly when the true one fits. */
  lemma NeedExact(p: Pool, b: Blk, size: u32, pa: u32)
    requires pa > 0
    ensures Need32(p, b, size, pa) == Need(p, b, size, pa) <==> Need(p, b, size, pa) < TWO32
  {
    if DataOf(p, b) % pa != 0 {
      var pad: int := pa - DataOf(p, b) % pa;
      var e: int := size + pad;
      assert e < TWO32 ==> e % TWO32 == e;
    }
  }

  /** The wrapped sum lets a request through that is larger than the pool: the block
      leaves its node. */
  lemma WrapExample()
    ensures var p, b := Pool(0x1004, 0x10_0000), Blk(0, 0xF_FFE8, false, 0x101c);
      && p.Ok() && Tiled(p, [b]) && Need32(p, b, 0x8000_0000, 8) == 4 && FirstFit32(p, [b], 0x8000_0000, 8) == 0
      && DataOf(p, b) + Pad(DataOf(p, b), 8) + 0x8000_0000 > EndOf(p, b) && !HasRoom(p, b, 0x8000_0000, 8)
  {
  }

  /** A wrapped sum can do no harm: here the block fits all the same, and there no node
      passes. */
  lemma WrapHarmless()
    ensures var p, b := Pool(0x1004, 0xC000_0000), Blk(0, 0xBFFF_FFE8, false, 0x101c);
      Need(p, b, 0x8000_0000, 8) >= TWO32 && FirstFit32(p, [b], 0x8000_0000, 8) == 0 && HasRoom(p, b, 0x8000_0000, 8)
    ensures var p, b := Pool(0x1004, 0x10_0000), Blk(0, 0xF_FFE8, false, 0x101c);
      Need(p, b, 0xC000_0000, 8) >= TWO32 && FirstFit32(p, [b], 0xC000_0000, 8) == 1
  {
  }

  /** Or the block fits but not the header of the node split off behind it. */
  lemma HeaderExample()
    ensures var p, b := Pool(0x1004, 0xC000_0000), Blk(0, 0xBFFF_FFE8, false, 0x101c);
      && FirstFit32(p, [b], 0xBFFF_FFE4, 8) == 0 && HasRoom(p, b, 0xBFFF_FFE4, 8)
      && b.len - Need32(p, b, 0xBFFF_FFE4, 8) >= MINBLK
      && DataOf(p, b) + Pad(DataOf(p, b), 8) + 0xBFFF_FFE4 == EndOf(p, b)
  {
  }

  /** A block of `size` bytes, at least one, fits into the node behind the padding. */
  predicate HasRoom(p: Pool, b: Blk, size: nat, pa: nat)
    requires pa > 0
  {
    Pad(DataOf(p, b), pa) + (if size == 0 then 1 else size) <= b.len
  }

  /** The node can be used for `size` bytes after the search asked for `asked`: data can
      start in it, and if it is going to be split, the header behind fits too. */
  predicate Suits(p: Pool, b: Blk, size: nat, pa: nat, asked: nat)
    requires pa > 0
  {
    var pad := Pad(DataOf(p, b), pa);
    asked <= b.len && pad < b.len && (b.len - asked >= MINBLK ==> pad + size + NODE <= b.len)
  }

  /** The true sum suits. */
  lemma NeedSuits(p: Pool, b: Blk, size: nat, pa: nat)
    requires pa > 0 && size > 0 && Need(p, b, size, pa) <= b.len
    ensures Suits(p, b, size, pa, Need(p, b, size, pa)) && HasRoom(p, b, size, pa)
  {
    hide Pad;
  }

  /** Index of the first free node that passes the source's test, or the number of
      nodes. */
  function FirstFit32(p: Pool, bs: seq<Blk>, size: u32, pa: u32): (k: nat)
    requires pa > 0
    ensures k <= |bs|
    ensures k < |bs| ==> !bs[k].alloc && Need32(p, bs[k], size, pa) <= bs[k].len
    ensures forall i | 0 <= i < k :: bs[i].alloc || bs[i].len < Need32(p, bs[i], size, pa)
  {
    if bs == [] then 0
    else if !bs[0].alloc && Need32(p, bs[0], size, pa) <= bs[0].len then 0
    else
      var k := FirstFit32(p, bs[1..], size, pa);
      assert forall i | 1 <= i < 1 + k :: bs[i] == bs[1..][i - 1];
      1 + k
  }

  /** Index of the first free node that is big enough, or the number of nodes. */
  function FirstFit(p: Pool, bs: seq<Blk>, size: nat, pa: nat): (k: nat)
    requires pa > 0
    ensures k <= |bs|
    ensures k < |bs| ==> !bs[k].alloc && Need(p, bs[k], size, pa) <= bs[k].len
    ensures forall i | 0 <= i < k :: bs[i].alloc || bs[i].len < Need(p, bs[i], size, pa)
  {
    if bs == [] then 0
    else if !bs[0].alloc && Need(p, bs[0], size, pa) <= bs[0].len then 0
    else
      var k := FirstFit(p, bs[1..], size, pa);
      assert forall i | 1 <= i < 1 + k :: bs[i] == bs[1..][i - 1];
      1 + k
  }

  /** The chosen node becomes a live node, and what is left over a free node if it
      is worth splitting off. */
  function Place(p: Pool, b: Blk, size: nat, pa: nat, asked: nat): (r: seq<Blk>)
    requires p.Ok() && pa > 0 && Suits(p, b, size, pa, asked) && EndOf(p, b) <= p.base + p.length
    ensures |r| == 1 || |r| == 2
  {
    var d := DataOf(p, b) + Pad(DataOf(p, b), pa);
    if b.len - asked < MINBLK then [Blk(b.at, b.len, true, d)]
    else
      var e := d + size;
      [Blk(b.at, e - DataOf(p, b), true, d), Blk((e - p.base) / 4, EndOf(p, b) - e - NODE, false, e + NODE)]
  }

  /** The whole heap after an allocation in node `k`. */
  function Allocated(p: Pool, bs: seq<Blk>, k: nat, size: nat, pa: nat, asked: nat): seq<Blk>
    requires p.Ok() && k < |bs| && pa > 0 && Suits(p, bs[k], size, pa, asked) && EndOf(p, bs[k]) <= p.base + p.length
  {
    bs[..k] + Place(p, bs[k], size, pa, asked) + bs[k + 1..]
  }

  lemma DivMod(a: nat, n: nat)
    requires n > 0
    ensures a == a / n * n + a % n && 0 <= a % n < n
  {
  }

  lemma Scale(a: int, n: nat)
    requires a >= 1
    ensures a * n >= n
  {
    assert a * n == n + (a - 1) * n;
  }

  lemma MultipleMod(q: nat, n: nat)
    requires n > 0
    ensures (q * n) % n == 0
  {
    var c, r := q * n / n, (q * n) % n;
    DivMod(q * n, n);
    assert (q - c) * n == r by { assert (q - c) * n == q * n - c * n; }
    if q > c {
      Scale(q - c, n);
    } else if q < c {
      Scale(c - q, n);
    }
  }

  lemma RestOfFours(a: nat, n: nat)
    requires n > 0 && a % 4 == 0 && n % 4 == 0
    ensures a % n % 4 == 0
  {
    var q, m := a / n, n / 4;
    DivMod(a, n);
    assert q * n == 4 * (q * m) by { assert n == 4 * m; }
    assert a % n == 4 * (a / 4 - q * m);
  }

  /** Padding reaches a multiple, and a multiple of four from a multiple of four. */
  lemma PadAligns(a: nat, n: nat)
    requires n > 0
    ensures (a + Pad(a, n)) % n == 0
  {
    if a % n != 0 {
      var q := a / n;
      DivMod(a, n);
      assert a + Pad(a, n) == (q + 1) * n by { assert (q + 1) * n == q * n + n; }
      MultipleMod(q + 1, n);
    }
  }

  lemma PadFour(a: nat, n: nat)
    requires n > 0 && a % 4 == 0 && n % 4 == 0
    ensures Pad(a, n) % 4 == 0
  {
    RestOfFours(a, n);
    FourDifference(n, a % n);
  }

  lemma FourDifference(n: nat, r: nat)
    requires n % 4 == 0 && r % 4 == 0
    ensures (n - r) % 4 == 0
  {
  }

  /** The data address handed out is aligned as asked. */
  lemma PlaceAligned(p: Pool, b: Blk, size: nat, pa: nat, asked: nat)
    requires p.Ok() && pa > 0
    requires Suits(p, b, size, pa, asked) && EndOf(p, b) <= p.base + p.length
    ensures Place(p, b, size, pa, asked)[0].data % pa == 0
  {
    hide Pad, EndOf;
    PadAligns(DataOf(p, b), pa);
  }

  /** What allocation promises about one node: the same extent, well-formed parts. */
  lemma PlaceOk(p: Pool, b: Blk, size: nat, pa: nat, asked: nat)
    requires p.Ok() && pa > 0 && pa % 4 == 0 && size > 0 && size % 4 == 0
    requires Suits(p, b, size, pa, asked) && EndOf(p, b) <= p.base + p.length
    ensures var r := Place(p, b, size, pa, asked);
      && r[0].alloc && r[0].at == b.at && r[0].data % 4 == 0
      && DataOf(p, b) <= r[0].data < EndOf(p, r[0]) <= EndOf(p, b)
      && (|r| == 1 ==> EndOf(p, r[0]) == EndOf(p, b))
      && (|r| == 2 ==> r[0].len % 4 == 0 && r[1].at == NextAt(r[0]) && !r[1].alloc && EndOf(p, r[1]) == EndOf(p, b)
                       && r[1].data == DataOf(p, r[1]) && r[1].data % 4 == 0 && b.len % 4 == r[1].len % 4)
  {
    hide Pad;
    var d := DataOf(p, b) + Pad(DataOf(p, b), pa);
    DataFour(p, b, pa);
    SumFour(DataOf(p, b), Pad(DataOf(p, b), pa));
    if b.len - asked >= MINBLK {
      CutShape(p, b, d, size);
    }
  }

  lemma SumFour(a: nat, c: nat)
    requires a % 4 == 0 && c % 4 == 0
    ensures (a + c) % 4 == 0
  {
  }

  /** A node cut behind `size` bytes from `d` on. */
  lemma CutShape(p: Pool, b: Blk, d: u32, size: nat)
    requires p.Ok() && d % 4 == 0 && size % 4 == 0 && size > 0
    requires DataOf(p, b) <= d && d + size + NODE <= EndOf(p, b) <= p.base + p.length
    ensures var e := d + size;
      var r := [Blk(b.at, e - DataOf(p, b), true, d), Blk((e - p.base) / 4, EndOf(p, b) - e - NODE, false, e + NODE)];
      && d < EndOf(p, r[0]) <= EndOf(p, b) && r[0].len % 4 == 0 && r[1].at == NextAt(r[0])
      && EndOf(p, r[1]) == EndOf(p, b) && r[1].data == DataOf(p, r[1]) && r[1].data % 4 == 0
      && b.len % 4 == r[1].len % 4
  {
    SumFour(d, size);
    SplitShape(p, b, d + size);
  }

  /** The live part has room for what the node had room for, and a part split off after
      the true sum was asked for is worth having. */
  lemma PlaceRoom(p: Pool, b: Blk, size: nat, pa: nat, asked: nat, x: nat)
    requires p.Ok() && pa > 0 && Suits(p, b, size, pa, asked) && EndOf(p, b) <= p.base + p.length
    ensures var r := Place(p, b, size, pa, asked);
      && (x <= size && HasRoom(p, b, x, pa) ==> r[0].data + x <= EndOf(p, r[0]))
      && (|r| == 2 && asked == Need(p, b, size, pa) ==> r[1].len >= MINBLK - NODE)
  {
    hide Pad;
  }

  lemma DataFour(p: Pool, b: Blk, pa: nat)
    requires p.Ok() && pa > 0 && pa % 4 == 0
    ensures DataOf(p, b) % 4 == 0 && Pad(DataOf(p, b), pa) % 4 == 0
  {
    hide Pad;
    PadFour(DataOf(p, b), pa);
  }

  /** A node cut at a word address. */
  lemma SplitShape(p: Pool, b: Blk, e: nat)
    requires p.Ok() && DataOf(p, b) < e && e % 4 == 0 && e + NODE <= EndOf(p, b)
    ensures (e - DataOf(p, b)) % 4 == 0 && p.base + 4 * ((e - p.base) / 4) == e
    ensures b.at + 6 + (e - DataOf(p, b)) / 4 == (e - p.base) / 4
    ensures (EndOf(p, b) - e - NODE) % 4 == b.len % 4
  {
  }

  /** Allocation keeps the tiling and leaves no two free neighbours. */
  lemma AllocatedOk(p: Pool, bs: seq<Blk>, k: nat, size: nat, pa: nat, asked: nat)
    requires p.Ok() && Tiled(p, bs) && NoAdjacentFree(bs) && k < |bs| && !bs[k].alloc
    requires pa > 0 && pa % 4 == 0 && size > 0 && size % 4 == 0 && Suits(p, bs[k], size, pa, asked)
    ensures EndOf(p, bs[k]) <= p.base + p.length
    ensures Tiled(p, Allocated(p, bs, k, size, pa, asked)) && NoAdjacentFree(Allocated(p, bs, k, size, pa, asked))
  {
    hide Place, Suits;
    InPool(p, bs, k);
    PlaceOk(p, bs[k], size, pa, asked);
    var r := Place(p, bs[k], size, pa, asked);
    SubstTiled(p, bs, k, r);
    SubstFree(bs, k, r);
  }

  /** Replacing a node by one or two nodes of the same extent. */
  lemma SubstTiled(p: Pool, bs: seq<Blk>, k: nat, r: seq<Blk>)
    requires Tiled(p, bs) && k < |bs| && (|r| == 1 || |r| == 2)
    requires r[0].at == bs[k].at && EndOf(p, r[|r| - 1]) == EndOf(p, bs[k])
    requires |r| == 2 ==> r[0].len % 4 == 0 && r[1].at == NextAt(r[0]) && r[1].len % 4 == bs[k].len % 4
    requires forall i | 0 <= i < |r| :: DataInside(p, r[i])
    ensures Tiled(p, bs[..k] + r + bs[k + 1..])
  {
    var n, m := bs[..k] + r + bs[k + 1..], |r|;
    forall j | 0 <= j < |n| - 1
      ensures n[j].len % 4 == 0 && n[j + 1].at == NextAt(n[j])
    {
      if j < k {
        assert bs[j].len % 4 == 0 && bs[j + 1].at == NextAt(bs[j]);
      } else if j < k + m - 1 {
        assert n[j] == r[0] && n[j + 1] == r[1];
      } else if j == k + m - 1 {
        assert n[j] == r[m - 1] && n[j + 1] == bs[k + 1];
        assert bs[k].len % 4 == 0 && bs[k + 1].at == NextAt(bs[k]);
      } else {
        assert n[j] == bs[j - m + 1] && n[j + 1] == bs[j - m + 1 + 1];
        assert bs[j - m + 1].len % 4 == 0 && bs[j - m + 1 + 1].at == NextAt(bs[j - m + 1]);
      }
    }
    assert forall j | 0 <= j < |n| :: n[j] == if j < k then bs[j] else if j < k + m then r[j - k] else bs[j - m + 1];
  }

  lemma SubstFree(bs: seq<Blk>, k: nat, r: seq<Blk>)
    requires NoAdjacentFree(bs) && k < |bs| && !bs[k].alloc && (|r| == 1 || |r| == 2) && r[0].alloc
    ensures NoAdjacentFree(bs[..k] + r + bs[k + 1..])
  {
    var n, m := bs[..k] + r + bs[k + 1..], |r|;
    forall j | 0 <= j < |n| - 1
      ensures n[j].alloc || n[j + 1].alloc
    {
      if j < k {
        assert n[j] == bs[j];
        assert j < k - 1 ==> n[j + 1] == bs[j + 1];
        assert bs[j].alloc || bs[j + 1].alloc;
      } else if j < k + m - 1 {
        assert n[j] == r[0];
      } else if j == k + m - 1 {
        assert n[j + 1] == bs[k + 1];
        assert bs[k].alloc || bs[k + 1].alloc;
      } else {
        assert n[j] == bs[j - m + 1] && n[j + 1] == bs[j - m + 1 + 1];
        assert bs[j - m + 1].alloc || bs[j - m + 1 + 1].alloc;
      }
    }
  }
}
