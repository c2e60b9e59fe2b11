/** Runs of kmalloc, kfree and the caller's own stores, and what the caller can rely on. */
module HeapRuns {
  import opened Memory
  import opened Heap
  import opened HeapMem

  /** A request, freeing the `i`-th block held, or storing `v` in its `w`-th word. */
  datatype Op = Alloc(size: u32, align: u32) | Free(i: nat) | Fill(i: nat, w: nat, v: u32)

  /** A pointer the caller got, and the bytes and alignment asked for. */
  datatype Held = Held(ptr: u32, size: u32, align: u32)

  /** The heap and what the caller holds: `own[i]` is the node of `held[i]`, and `since[i]`
      the memory as it was when that block was granted or last written. */
  datatype View = View(bs: seq<Blk>, mem: seq<u32>, held: seq<Held>, own: seq<Blk>, since: seq<seq<u32>>)

  ghost predicate Lists(x: View) {
    |x.held| == |x.own| == |x.since|
  }

  ghost predicate Backs(p: Pool, b: Blk, h: Held) {
    b.data == h.ptr && h.ptr + h.size <= EndOf(p, b) && Fitting(h.ptr, h.align)
  }

  /** The caller holds exactly the live blocks, each once, aligned and with room for what
      was asked, and nothing else has written to them. */
  ghost predicate Owns(p: Pool, x: View) {
    && Lists(x)
    && (forall b :: b in LiveOf(x.bs) <==> b in x.own)
    && (forall i, j | 0 <= i < j < |x.own| :: x.own[i] != x.own[j])
    && forall i | 0 <= i < |x.own| :: Backs(p, x.own[i], x.held[i]) && Untouched(x.since[i], x.mem, x.own[i])
  }

  function Without<T>(s: seq<T>, i: nat): (r: seq<T>)
    requires i < |s|
    ensures |r| == |s| - 1
  {
    s[..i] + s[i + 1..]
  }

  lemma WithoutAt<T>(s: seq<T>, i: nat, j: nat)
    requires i < |s| && j < |s| - 1
    ensures Without(s, i)[j] == s[if j < i then j else j + 1]
  {
  }

  lemma WithoutMembers(s: seq<Blk>, i: nat)
    requires i < |s|
    ensures forall x | x in s && x != s[i] :: x in Without(s, i)
  {
    assert s == s[..i] + [s[i]] + s[i + 1..];
  }

  lemma WithoutDistinct(s: seq<Blk>, i: nat)
    requires i < |s| && forall j, k | 0 <= j < k < |s| :: s[j] != s[k]
    ensures forall j, k | 0 <= j < k < |Without(s, i)| :: Without(s, i)[j] != Without(s, i)[k]
  {
    var r := Without(s, i);
    forall j, k | 0 <= j < k < |r|
      ensures r[j] != r[k]
    {
      WithoutAt(s, i, j);
      WithoutAt(s, i, k);
    }
  }

  // ----- What one call does

  ghost predicate Granted(p: Pool, a: View, size: u32, align: u32, b: View)
    requires p.Ok()
  {
    var pa := PtrAlign(align);
    var k := FirstFit32(p, a.bs, Rounded(size), pa);
    if k == |a.bs| then b == a else
      var asked := Need32(p, a.bs[k], Rounded(size), pa);
      && Suits(p, a.bs[k], Rounded(size), pa, asked)
      && EndOf(p, a.bs[k]) <= p.base + p.length
      && b.bs == Allocated(p, a.bs, k, Rounded(size), pa, asked) && k < |b.bs|
      && Fitting(b.bs[k].data, align) && b.held == a.held + [Held(b.bs[k].data, size, align)]
      && b.own == a.own + [b.bs[k]] && b.since == a.since + [b.mem]
  }

  ghost predicate Freed(a: View, i: nat, b: View)
    requires i < |a.held| == |a.own| == |a.since|
  {
    && b.bs == Coalesce(Released(a.bs, a.held[i].ptr))
    && b.held == Without(a.held, i) && b.own == Without(a.own, i) && b.since == Without(a.since, i)
  }

  /** Word `w` of what `h` points to. */
  function WordOf(p: Pool, h: Held, w: nat): int {
    (h.ptr - p.base) / 4 + w
  }

  ghost predicate Stored(p: Pool, a: View, i: nat, w: nat, v: u32, b: View)
    requires i < |a.held| == |a.own| == |a.since|
  {
    var at := WordOf(p, a.held[i], w);
    && 0 <= at < |a.mem|
    && b == a.(mem := a.mem[at := v], since := a.since[i := a.mem[at := v]])
  }

  /** Requests with an alignment that is no power of two, and frees and stores outside of
      what is held, are not made. */
  predicate Made(op: Op, held: seq<Held>) {
    match op
    case Alloc(_, align) => align == 0 || PowerOfTwo(align)
    case Free(i) => i < |held|
    case Fill(i, w, _) => i < |held| && 4 * w + 4 <= held[i].size
  }

  ghost predicate Stepped(p: Pool, a: View, op: Op, b: View)
    requires p.Ok() && Lists(a)
  {
    if !Made(op, a.held) then b == a else
      match op
      case Alloc(size, align) => Granted(p, a, size, align, b)
      case Free(i) => Freed(a, i, b)
      case Fill(i, w, v) => Stored(p, a, i, w, v, b)
  }

  /** A request finds no node, or one that suits it. */
  ghost predicate Served(p: Pool, bs: seq<Blk>, op: Op)
    requires p.Ok()
  {
    op.Alloc? && (op.align == 0 || PowerOfTwo(op.align)) ==>
      var k := FirstFit32(p, bs, Rounded(op.size), PtrAlign(op.align));
      k < |bs| ==> Good(p, bs[k], op.size, PtrAlign(op.align))
  }

  ghost predicate IsRun(p: Pool, run: seq<View>, ops: seq<Op>)
    requires p.Ok()
  {
    && |run| <= |ops| + 1
    && (forall i | 0 <= i < |run| :: Lists(run[i]) && Owns(p, run[i]))
    && forall i | 0 <= i < |run| - 1 :: Served(p, run[i].bs, ops[i]) && Stepped(p, run[i], ops[i], run[i + 1])
  }

  // ----- What is held stays held

  /** A live node is the only one with its data address. */
  lemma OneData(p: Pool, bs: seq<Blk>, a: Blk, b: Blk)
    requires p.Ok() && Tiled(p, bs) && a in LiveOf(bs) && b in LiveOf(bs) && a.data == b.data
    ensures a == b
  {
    var i :| 0 <= i < |bs| && bs[i] == a;
    var j :| 0 <= j < |bs| && bs[j] == b;
    if i != j {
      LiveDisjoint(p, bs, i, j);
    }
  }

  lemma BacksAt(p: Pool, b: Blk, h: Held)
    requires Backs(p, b, h)
    ensures b.data == h.ptr
  {
  }

  lemma UntouchedTrans(m0: seq<u32>, m1: seq<u32>, m2: seq<u32>, b: Blk)
    requires Untouched(m0, m1, b) && Untouched(m1, m2, b)
    ensures Untouched(m0, m2, b)
  {
  }

  /** A granted request adds one entry. */
  lemma Gains(p: Pool, a: View, b: View, x: Blk, h: Held)
    requires Owns(p, a) && LiveOf(b.bs) == LiveOf(a.bs) + {x} && x !in LiveOf(a.bs) && Backs(p, x, h)
    requires forall y | y in LiveOf(a.bs) :: Untouched(a.mem, b.mem, y)
    requires b.held == a.held + [h] && b.own == a.own + [x] && b.since == a.since + [b.mem]
    ensures Owns(p, b)
  {
    hide LiveOf, Backs;
    forall i | 0 <= i < |a.own|
      ensures Untouched(a.since[i], b.mem, a.own[i])
    {
      assert a.own[i] in LiveOf(a.bs);
      UntouchedTrans(a.since[i], a.mem, b.mem, a.own[i]);
    }
  }

  /** Every other entry stays. */
  lemma OtherEntry(p: Pool, a: View, i: nat, b: View, k: nat)
    requires p.Ok() && Tiled(p, a.bs) && Owns(p, a) && i < |a.held| && k < |a.held| && k != i
    requires LiveOf(b.bs) == set y | y in LiveOf(a.bs) && y.data != a.held[i].ptr
    requires forall y | y in LiveOf(b.bs) :: Untouched(a.mem, b.mem, y)
    ensures a.own[k] in LiveOf(b.bs) && Backs(p, a.own[k], a.held[k]) && Untouched(a.since[k], b.mem, a.own[k])
    ensures a.own[k] != a.own[i] && a.own[i].data == a.held[i].ptr
  {
    hide LiveOf, Untouched, Tiled;
    assert Backs(p, a.own[i], a.held[i]);
    assert a.own[k] in LiveOf(a.bs) && a.own[i] in LiveOf(a.bs) && a.own[k] != a.own[i];
    if a.own[k].data == a.held[i].ptr {
      OneData(p, a.bs, a.own[k], a.own[i]);
    }
    assert Untouched(a.since[k], a.mem, a.own[k]);
    UntouchedTrans(a.since[k], a.mem, b.mem, a.own[k]);
  }

  /** A freed block takes its entry away. */
  lemma Loses(p: Pool, a: View, i: nat, b: View)
    requires p.Ok() && Tiled(p, a.bs) && Owns(p, a) && i < |a.held| && Freed(a, i, b)
    requires LiveOf(b.bs) == set y | y in LiveOf(a.bs) && y.data != a.held[i].ptr
    requires forall y | y in LiveOf(b.bs) :: Untouched(a.mem, b.mem, y)
    ensures Owns(p, b)
  {
    hide LiveOf, Untouched, Tiled, Coalesce, Released, Backs, Without;
    WithoutMembers(a.own, i);
    WithoutDistinct(a.own, i);
    forall j | 0 <= j < |b.own|
      ensures b.own[j] in LiveOf(b.bs) && Backs(p, b.own[j], b.held[j]) && Untouched(b.since[j], b.mem, b.own[j])
    {
      var k := if j < i then j else j + 1;
      WithoutAt(a.held, i, j);
      WithoutAt(a.own, i, j);
      WithoutAt(a.since, i, j);
      OtherEntry(p, a, i, b, k);
    }
    forall y | y in LiveOf(b.bs)
      ensures y in b.own
    {
      assert Backs(p, a.own[i], a.held[i]);
      BacksAt(p, a.own[i], a.held[i]);
    }
  }

  /** A word the caller may write lies in its own block, behind the back pointer. */
  lemma Writable(p: Pool, x: View, i: nat, w: nat) returns (k: nat)
    requires p.Ok() && Tiled(p, x.bs) && Rep(x.mem, p, x.bs) && Owns(p, x)
    requires i < |x.held| && 4 * w + 4 <= x.held[i].size
    ensures k < |x.bs| && x.bs[k] == x.own[i] && x.bs[k].alloc
    ensures x.bs[k].at <= (x.bs[k].data - p.base) / 4 <= WordOf(p, x.held[i], w) < NextAt(x.bs[k])
    ensures 0 <= WordOf(p, x.held[i], w) < |x.mem|
  {
    assert Backs(p, x.own[i], x.held[i]) && x.own[i] in LiveOf(x.bs);
    k :| 0 <= k < |x.bs| && x.bs[k] == x.own[i];
    assert DataInside(p, x.bs[k]);
    hide Tiled, Rep;
    NodeRead(x.mem, p, x.bs, k);
  }

  lemma StoreElsewhere(p: Pool, bs: seq<Blk>, m: seq<u32>, k: nat, l: nat, at: nat, v: u32)
    requires Tiled(p, bs) && k < |bs| && l < |bs| && k != l && bs[k].at <= at < NextAt(bs[k]) && at < |m|
    ensures Untouched(m, m[at := v], bs[l])
  {
    if l < k {
      Apart(p, bs, l, k);
    } else {
      Apart(p, bs, k, l);
    }
  }

  lemma OwnsLists(p: Pool, x: View)
    requires Owns(p, x)
    ensures Lists(x)
  {
  }

  /** A store into one block leaves the heap and the other blocks alone. */
  lemma Writes(p: Pool, a: View, i: nat, w: nat, v: u32, b: View)
    requires p.Ok() && Tiled(p, a.bs) && Rep(a.mem, p, a.bs) && Owns(p, a)
    requires i < |a.held| && 4 * w + 4 <= a.held[i].size && Stored(p, a, i, w, v, b)
    ensures Owns(p, b) && Rep(b.mem, p, b.bs)
  {
    hide Tiled, Rep;
    var k := Writable(p, a, i, w);
    PayloadWrites(a.mem, b.mem, p, a.bs, k);
    forall j | 0 <= j < |b.own|
      ensures Untouched(b.since[j], b.mem, b.own[j])
    {
      if j != i {
        assert a.own[j] in LiveOf(a.bs) && a.own[j] != a.own[i];
        var l :| 0 <= l < |a.bs| && a.bs[l] == a.own[j];
        StoreElsewhere(p, a.bs, a.mem, k, l, WordOf(p, a.held[i], w), v);
        assert Untouched(a.since[j], a.mem, a.own[j]);
        UntouchedTrans(a.since[j], a.mem, b.mem, a.own[j]);
      }
    }
    hide Untouched;
    assert forall j | 0 <= j < |b.own| :: Backs(p, a.own[j], a.held[j]);
  }

  /** What is held may be freed. */
  lemma MayFree(m: KMem, x: View, i: nat)
    requires Owns(m.pool, x) && x.bs == m.bs && i < |x.held|
    ensures m.Live(x.held[i].ptr)
  {
    assert Backs(m.pool, x.own[i], x.held[i]) && x.own[i] in LiveOf(m.bs);
    var k :| 0 <= k < |m.bs| && m.bs[k] == x.own[i];
  }

  /** Requests whose sums cannot wrap are served in every state. */
  lemma SafeServed(p: Pool, bs: seq<Blk>, op: Op)
    requires p.Ok() && (op.Alloc? ==> Fits32(op.size, op.align))
    ensures Served(p, bs, op)
  {
    hide FirstFit32, FirstFit, Good, PowerOfTwo;
    if op.Alloc? && (op.align == 0 || PowerOfTwo(op.align)) {
      SafeRequest(p, bs, op.size, op.align);
    }
  }

  lemma RunStart(p: Pool, ops: seq<Op>, x: View)
    requires p.Ok() && Owns(p, x)
    ensures IsRun(p, [x], ops)
  {
  }

  lemma RunOn(p: Pool, run: seq<View>, ops: seq<Op>, x: View)
    requires p.Ok() && IsRun(p, run, ops) && 0 < |run| <= |ops| && Lists(x) && Owns(p, x) && Lists(run[|run| - 1])
    requires Served(p, run[|run| - 1].bs, ops[|run| - 1]) && Stepped(p, run[|run| - 1], ops[|run| - 1], x)
    ensures IsRun(p, run + [x], ops)
  {
    hide Owns, Served, Stepped;
    var r, n := run + [x], |run|;
    forall i | 0 <= i < |r| - 1
      ensures Owns(p, r[i]) && Lists(r[i]) && Served(p, r[i].bs, ops[i]) && Stepped(p, r[i], ops[i], r[i + 1])
    {
      assert i < n - 1 ==> r[i] == run[i] && r[i + 1] == run[i + 1];
    }
  }

  lemma NoneGranted(p: Pool, x: View, size: u32, align: u32)
    requires p.Ok()
    ensures FirstFit32(p, x.bs, Rounded(size), PtrAlign(align)) == |x.bs| ==> Granted(p, x, size, align, x)
  {
  }

  /** A request that is served well, on the side of the heap. */
  lemma IsGranted(m: KMem, a: View, k: nat, size: u32, align: u32, ptr: u32)
    requires m.pool.Ok() && k == FirstFit32(m.pool, a.bs, Rounded(size), PtrAlign(align)) < |a.bs|
    requires Fitting(ptr, align)
    requires m.Outcome(a.mem, a.bs, k, size, PtrAlign(align), ptr) && Good(m.pool, a.bs[k], size, PtrAlign(align))
    requires Owns(m.pool, a)
    ensures m.Valid() && ptr != 0 && k < |m.bs|
    ensures var h := Held(ptr, size, align);
      var b := View(m.bs, m.mem[..], a.held + [h], a.own + [m.bs[k]], a.since + [m.mem[..]]);
      Granted(m.pool, a, size, align, b) && Owns(m.pool, b)
  {
    hide LiveOf, Untouched, FirstFit32, Good, Tiled, Rep, NoAdjacentFree, Suits, HasRoom, Pad, Need32, Allocated;
    hide Owns, Rounded;
    var b := View(m.bs, m.mem[..], a.held + [Held(ptr, size, align)], a.own + [m.bs[k]], a.since + [m.mem[..]]);
    Gains(m.pool, a, b, m.bs[k], Held(ptr, size, align));
  }

  lemma StepGranted(p: Pool, a: View, op: Op, b: View)
    requires p.Ok() && Lists(a) && op.Alloc? && Made(op, a.held) && Granted(p, a, op.size, op.align, b)
    ensures Stepped(p, a, op, b)
  {
  }

  // ----- The heap with its caller

  class Client {
    const heap: KMem
    var held: seq<Held>
    ghost var own: seq<Blk>
    ghost var since: seq<seq<u32>>

    ghost function Now(): View
      reads this, heap, heap.mem
    {
      View(heap.bs, heap.mem[..], held, own, since)
    }

    ghost predicate Valid()
      reads this, heap, heap.mem
    {
      heap.Valid() && Owns(heap.pool, Now())
    }

    /** A caller that holds nothing, on a heap just built. */
    constructor (m: KMem)
      requires m.Valid() && LiveOf(m.bs) == {}
      ensures Valid() && heap == m && held == []
    {
      heap := m;
      held, own, since := [], [], [];
    }

    method Request(op: Op)
      requires Valid() && op.Alloc? && Made(op, held) && Served(heap.pool, heap.bs, op)
      modifies this, heap, heap.mem
      ensures Valid() && Stepped(heap.pool, old(Now()), op, Now())
    {
      hide Stepped, LiveOf, Untouched, PowerOfTwo, FirstFit32, Good, Tiled, Rep, NoAdjacentFree, Owns, Granted, HasRoom;
      OwnsLists(heap.pool, Now());
      ghost var was, k := Now(), FirstFit32(heap.pool, heap.bs, Rounded(op.size), PtrAlign(op.align));
      NoneGranted(heap.pool, was, op.size, op.align);
      var ptr := heap.Kmalloc(op.size, op.align);
      if k < |was.bs| {
        IsGranted(heap, was, k, op.size, op.align, ptr);
      }
      if ptr != 0 {
        held := held + [Held(ptr, op.size, op.align)];
        own := own + [heap.bs[k]];
        since := since + [heap.mem[..]];
      }
      StepGranted(heap.pool, was, op, Now());
    }

    method Release(i: nat)
      requires Valid() && i < |held|
      modifies this, heap, heap.mem
      ensures Valid() && Freed(old(Now()), i, Now())
    {
      hide LiveOf, Untouched, Tiled, Rep, NoAdjacentFree, Coalesce, Released;
      ghost var was := Now();
      MayFree(heap, was, i);
      heap.Kfree(held[i].ptr);
      held, own, since := Without(held, i), Without(own, i), Without(since, i);
      Loses(heap.pool, was, i, Now());
    }

    method Write(i: nat, w: nat, v: u32)
      requires Valid() && i < |held| && 4 * w + 4 <= held[i].size
      modifies this, heap.mem
      ensures Valid() && Stored(heap.pool, old(Now()), i, w, v, Now())
    {
      hide LiveOf, Untouched, Tiled, Rep, NoAdjacentFree;
      ghost var was := Now();
      ghost var k := Writable(heap.pool, was, i, w);
      var at := WordOf(heap.pool, held[i], w);
      heap.mem[at] := v;
      since := since[i := heap.mem[..]];
      assert heap.mem[..] == was.mem[at := v];
      Writes(heap.pool, was, i, w, v, Now());
    }

    method Do(op: Op)
      requires Valid() && Served(heap.pool, heap.bs, op)
      modifies this, heap, heap.mem
      ensures Valid() && Stepped(heap.pool, old(Now()), op, Now())
    {
      hide Owns, Granted, Freed, Stored, PowerOfTwo;
      if Made(op, held) {
        match op
        case Alloc(_, _) => Request(op);
        case Free(i) => Release(i);
        case Fill(i, w, v) => Write(i, w, v);
      }
    }

    /** Whether a call is one that goes well in the present state. */
    method Foresee(op: Op) returns (good: bool)
      requires Valid()
      ensures good <==> Served(heap.pool, heap.bs, op)
    {
      hide Owns, FirstFit32, Good, PowerOfTwo;
      good := true;
      if op.Alloc? && (op.align == 0 || PowerOfTwo(op.align)) {
        good := heap.Foresee(op.size, op.align);
      }
    }

    /** A run of calls: it gets through all of them, or stops before the first request
        that finds a node it does not suit. Requests that cannot wrap never stop it. */
    method Run(ops: seq<Op>) returns (n: nat, ghost run: seq<View>)
      requires Valid()
      modifies this, heap, heap.mem
      ensures Valid() && n <= |ops| && |run| == n + 1 && run[0] == old(Now()) && run[n] == Now()
      ensures IsRun(heap.pool, run, ops)
      ensures n < |ops| ==> !Served(heap.pool, heap.bs, ops[n])
      ensures (forall op | op in ops && op.Alloc? :: Fits32(op.size, op.align)) ==> n == |ops|
    {
      hide Owns, Stepped, Served, IsRun, PowerOfTwo;
      RunStart(heap.pool, ops, Now());
      OwnsLists(heap.pool, Now());
      n, run := 0, [Now()];
      while n < |ops|
        invariant Valid() && n <= |ops| && |run| == n + 1 && run[0] == old(Now()) && run[n] == Now()
        invariant IsRun(heap.pool, run, ops) && Lists(Now())
      {
        var good := Foresee(ops[n]);
        if !good {
          if ops[n].Alloc? ==> Fits32(ops[n].size, ops[n].align) {
            SafeServed(heap.pool, heap.bs, ops[n]);
          }
          assert ops[n] in ops;
          return;
        }
        Do(ops[n]);
        OwnsLists(heap.pool, Now());
        RunOn(heap.pool, run, ops, Now());
        run := run + [Now()];
        n := n + 1;
      }
    }

    /** Freeing everything held leaves the one node there was at the start. */
    method FreeAll()
      requires Valid()
      modifies this, heap, heap.mem
      ensures Valid() && held == []
      ensures |heap.bs| == 1 && heap.bs[0].at == 0 && heap.bs[0].len == heap.pool.length - NODE && !heap.bs[0].alloc
    {
      hide Tiled, Rep, NoAdjacentFree, Untouched, Coalesce, Released;
      while held != []
        invariant Valid()
        decreases |held|
      {
        Release(|held| - 1);
      }
      forall i | 0 <= i < |heap.bs|
        ensures !heap.bs[i].alloc
      {
        assert heap.bs[i] !in own;
      }
      AllFree(heap.pool, heap.bs);
    }
  }

  /** The whole life of a heap: built over a buffer, used, and given back. */
  method Session(base: u32, length: nat, buffer: array<u32>, ops: seq<Op>) returns (m: KMem)
    requires Pool(base, length).Ok() && buffer.Length == length / 4
    modifies buffer
    ensures m.Valid() && m.mem == buffer && m.pool == Pool(base, length)
    ensures |m.bs| == 1 && m.bs[0].at == 0 && m.bs[0].len == length - NODE && !m.bs[0].alloc
  {
    hide Owns, Tiled, Rep, NoAdjacentFree, Untouched, IsRun;
    m := new KMem(base, length, buffer);
    assert LiveOf(m.bs) == {};
    var c := new Client(m);
    var n, _ := c.Run(ops);
    c.FreeAll();
  }
}
