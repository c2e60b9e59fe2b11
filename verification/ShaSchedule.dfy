/** What SHA1_Transform leaves of a block: the last sixteen words of its schedule. Only the
    zero block is left as it was. */
module ShaSchedule {
  import opened Sha
  import opened ShaCode

  /** What is left of a block after the rounds. */
  function LastWords(m: seq<bv32>): (r: seq<bv32>)
    requires |m| == 16
    ensures |r| == 16
  {
    seq(16, k requires 0 <= k < 16 => W(m, 64 + k))
  }

  /** `n` rotations by one bit. */
  function RolN(n: nat, v: bv32): bv32 {
    if n == 0 then v else Rol1(RolN(n - 1, v))
  }

  lemma {:induction false} RolAdds(a: nat, b: nat, v: bv32)
    ensures RolN(a + b, v) == RolN(a, RolN(b, v))
  {
    if a > 0 {
      RolAdds(a - 1, b, v);
    }
  }

  lemma Parity(a: bv32, b: bv32, c: bv32, d: bv32)
    ensures Parity4(a, b, c, d) == Xor(Xor(a, b), Xor(c, d))
  {
    hide Xor;
    XorAssoc(Xor(a, b), c, d);
  }

  lemma XorAssoc(a: bv32, b: bv32, c: bv32)
    ensures Xor(Xor(a, b), c) == Xor(a, Xor(b, c))
  {
  }

  lemma XorComm(a: bv32, b: bv32)
    ensures Xor(a, b) == Xor(b, a)
  {
  }

  lemma Swap(a: bv32, b: bv32, c: bv32, d: bv32)
    ensures Xor(Xor(a, b), Xor(c, d)) == Xor(Xor(a, c), Xor(b, d))
  {
    hide Xor;
    XorAssoc(a, b, Xor(c, d));
    XorAssoc(b, c, d);
    XorComm(b, c);
    XorAssoc(c, b, d);
    XorAssoc(a, c, Xor(b, d));
  }

  lemma Drop(a: bv32, b: bv32, x: bv32)
    ensures Xor(Xor(a, x), Xor(x, b)) == Xor(a, b) && Xor(Xor(x, a), Xor(x, b)) == Xor(a, b)
    ensures Xor(Xor(a, x), Xor(b, x)) == Xor(a, b) && Xor(Xor(x, a), Xor(b, x)) == Xor(a, b)
  {
  }

  lemma {:induction false} RolXor(n: nat, a: bv32, b: bv32)
    ensures RolN(n, Xor(a, b)) == Xor(RolN(n, a), RolN(n, b))
  {
    if n > 0 {
      hide Xor, Rol1;
      RolXor(n - 1, a, b);
      Rol1Xor(RolN(n - 1, a), RolN(n - 1, b));
    }
  }

  lemma Rol1Xor(a: bv32, b: bv32)
    ensures Rol1(Xor(a, b)) == Xor(Rol1(a), Rol1(b))
  {
  }

  lemma RolXor4(n: nat, a: bv32, b: bv32, c: bv32, d: bv32)
    ensures RolN(n, Parity4(a, b, c, d)) == Parity4(RolN(n, a), RolN(n, b), RolN(n, c), RolN(n, d))
  {
    hide RolN, Xor, Parity4;
    Parity(a, b, c, d);
    Parity(RolN(n, a), RolN(n, b), RolN(n, c), RolN(n, d));
    RolXor(n, a, b);
    RolXor(n, c, d);
    RolXor(n, Xor(a, b), Xor(c, d));
  }

  /** Rotating by 32 bits changes nothing. */
  lemma RolWord(v: bv32)
    ensures RolN(32, v) == v
  {
    hide RolN;
    RolAdds(16, 16, v);
    Rol16(v);
    Rol16(RolN(16, v));
    HalfTurns(v);
  }

  lemma Rol4(v: bv32)
    ensures RolN(4, v) == (v << 4) | (v >> 28)
  {
    assert RolN(1, v) == Rol1(v);
    assert RolN(2, v) == Rol1(Rol1(v));
    assert RolN(3, v) == Rol1(Rol1(Rol1(v)));
  }

  lemma Rol16(v: bv32)
    ensures RolN(16, v) == (v << 16) | (v >> 16)
  {
    hide RolN;
    var a, b, c := RolN(4, v), RolN(8, v), RolN(12, v);
    RolAdds(4, 4, v);
    RolAdds(4, 8, v);
    RolAdds(4, 12, v);
    Rol4(v);
    Rol4(a);
    Rol4(b);
    Rol4(c);
  }

  lemma HalfTurns(v: bv32)
    ensures var u := (v << 16) | (v >> 16); (u << 16) | (u >> 16) == v
  {
  }

  /** The schedule, `e` times as far apart. */
  ghost predicate Strides(m: seq<bv32>, e: nat)
    requires |m| == 16
  {
    forall t: nat | 16 * e <= t :: Stride(m, e, t)
  }

  ghost predicate Stride(m: seq<bv32>, e: nat, t: nat)
    requires |m| == 16 && 16 * e <= t
  {
    W(m, t) == RolN(e, Parity4(W(m, t - 3 * e), W(m, t - 8 * e), W(m, t - 14 * e), W(m, t - 16 * e)))
  }

  lemma StrideOne(m: seq<bv32>)
    requires |m| == 16
    ensures Strides(m, 1)
  {
    hide W, Rol1, RolN, Parity4;
    forall t: nat | 16 <= t
      ensures Stride(m, 1, t)
    {
      WNext(m, t);
      RolOne(Parity4(W(m, t - 3), W(m, t - 8), W(m, t - 14), W(m, t - 16)));
    }
  }

  lemma RolOne(v: bv32)
    ensures RolN(1, v) == Rol1(v)
  {
    assert RolN(0, v) == v;
  }

  /** Putting the rule into itself, the mixed terms cancel. */
  lemma StrideTwice(m: seq<bv32>, e: nat)
    requires |m| == 16 && Strides(m, e)
    ensures Strides(m, 2 * e)
  {
    hide Stride;
    forall t: nat | 16 * (2 * e) <= t
      ensures Stride(m, 2 * e, t)
    {
      Substituted(m, e, t);
    }
  }

  lemma Substituted(m: seq<bv32>, e: nat, t: nat)
    requires |m| == 16 && 32 * e <= t && Stride(m, e, t) && Stride(m, e, t - 3 * e) && Stride(m, e, t - 8 * e)
    requires Stride(m, e, t - 14 * e) && Stride(m, e, t - 16 * e)
    ensures Stride(m, 2 * e, t)
  {
    hide RolN, W, Parity4;
    var p := Parity4(W(m, t - 6 * e), W(m, t - 11 * e), W(m, t - 17 * e), W(m, t - 19 * e));
    var q := Parity4(W(m, t - 11 * e), W(m, t - 16 * e), W(m, t - 22 * e), W(m, t - 24 * e));
    var r := Parity4(W(m, t - 17 * e), W(m, t - 22 * e), W(m, t - 28 * e), W(m, t - 30 * e));
    var s := Parity4(W(m, t - 19 * e), W(m, t - 24 * e), W(m, t - 30 * e), W(m, t - 32 * e));
    RolXor4(e, p, q, r, s);
    RolAdds(e, e, Parity4(p, q, r, s));
    Cancel(W(m, t - 6 * e), W(m, t - 11 * e), W(m, t - 17 * e), W(m, t - 19 * e), W(m, t - 16 * e),
           W(m, t - 22 * e), W(m, t - 24 * e), W(m, t - 28 * e), W(m, t - 30 * e), W(m, t - 32 * e));
  }

  lemma Cancel(x6: bv32, x11: bv32, x17: bv32, x19: bv32, x16: bv32, x22: bv32, x24: bv32, x28: bv32, x30: bv32,
               x32: bv32)
    ensures Parity4(Parity4(x6, x11, x17, x19), Parity4(x11, x16, x22, x24), Parity4(x17, x22, x28, x30),
                    Parity4(x19, x24, x30, x32)) == Parity4(x6, x16, x28, x32)
  {
    hide Parity4, Xor;
    TwoRows(x6, x11, x17, x19, x16, x22, x24);
    TwoRows(x28, x30, x17, x22, x32, x19, x24);
    Turn(x17, x22, x28, x30);
    Turn(x19, x24, x30, x32);
    var p, q := Parity4(x6, x11, x17, x19), Parity4(x11, x16, x22, x24);
    var r, s := Parity4(x17, x22, x28, x30), Parity4(x19, x24, x30, x32);
    Parity(p, q, r, s);
    var a, b, c, d := Xor(x17, x19), Xor(x22, x24), Xor(x17, x22), Xor(x19, x24);
    Swap(x17, x19, x22, x24);
    Swap(Xor(x6, x16), Xor(a, b), Xor(x28, x32), Xor(c, d));
    SelfXor(Xor(Xor(x6, x16), Xor(x28, x32)), Xor(a, b));
    Parity(x6, x16, x28, x32);
  }

  /** Two rows that share the word `x`. */
  lemma TwoRows(a: bv32, x: bv32, b: bv32, c: bv32, d: bv32, e: bv32, f: bv32)
    ensures Xor(Parity4(a, x, b, c), Parity4(x, d, e, f)) == Xor(Xor(a, d), Xor(Xor(b, c), Xor(e, f)))
  {
    hide Parity4, Xor;
    Parity(a, x, b, c);
    Parity(x, d, e, f);
    Swap(Xor(a, x), Xor(b, c), Xor(x, d), Xor(e, f));
    Drop(a, d, x);
  }

  lemma Turn(a: bv32, b: bv32, c: bv32, d: bv32)
    ensures Parity4(a, b, c, d) == Parity4(c, d, a, b)
  {
    hide Xor, Parity4;
    Parity(a, b, c, d);
    Parity(c, d, a, b);
    XorComm(Xor(a, b), Xor(c, d));
  }

  lemma SelfXor(v: bv32, x: bv32)
    ensures Xor(v, Xor(x, x)) == v
  {
  }

  lemma {:induction false} Repeats(m: seq<bv32>, t: nat)
    requires |m| == 16 && LastWords(m) == m
    ensures W(m, t + 64) == W(m, t)
  {
    if t < 16 {
      assert LastWords(m)[t] == W(m, 64 + t);
    } else {
      Repeats(m, t - 3);
      Repeats(m, t - 8);
      Repeats(m, t - 14);
      Repeats(m, t - 16);
    }
  }

  lemma {:induction false} Repeated(m: seq<bv32>, t: nat, n: nat)
    requires |m| == 16 && LastWords(m) == m
    ensures W(m, t + 64 * n) == W(m, t)
  {
    hide W, LastWords;
    if n > 0 {
      Repeated(m, t, n - 1);
      Repeats(m, t + 64 * (n - 1));
    }
  }

  lemma {:induction false} ZeroSchedule(m: seq<bv32>, t: nat)
    requires |m| == 16 && forall k | 0 <= k < 16 :: m[k] == 0
    ensures W(m, t) == 0
  {
    if t >= 16 {
      ZeroSchedule(m, t - 3);
      ZeroSchedule(m, t - 8);
      ZeroSchedule(m, t - 14);
      ZeroSchedule(m, t - 16);
      assert Rol1(0) == 0;
    }
  }

  /** At stride 32 the rotation is gone; a schedule that repeats after 64 words then is
      zero everywhere. */
  lemma RepeatsZero(m: seq<bv32>, k: nat)
    requires |m| == 16 && LastWords(m) == m && k < 16
    ensures m[k] == 0
  {
    hide W, LastWords, RolN, Parity4;
    StrideOne(m);
    StrideTwice(m, 1);
    StrideTwice(m, 2);
    StrideTwice(m, 4);
    StrideTwice(m, 8);
    StrideTwice(m, 16);
    var t := k + 544;
    Repeated(m, k, 7);
    Repeated(m, k + 32, 8);
    Repeated(m, k + 32, 4);
    Repeated(m, k + 32, 1);
    Repeated(m, k + 32, 0);
    var x, y := W(m, k), W(m, k + 32);
    assert Stride(m, 32, t);
    RolWord(Parity4(x, y, y, y));
    assert y == Parity4(x, y, y, y);
    OddOne(x, y);
    Start(m, k);
  }

  lemma OddOne(x: bv32, y: bv32)
    requires y == Parity4(x, y, y, y)
    ensures x == 0
  {
  }

  lemma Start(m: seq<bv32>, k: nat)
    requires |m| == 16 && k < 16
    ensures W(m, k) == m[k]
  {
  }

  lemma OnlyZeros(m: seq<bv32>)
    requires |m| == 16
    ensures LastWords(m) == m <==> forall k | 0 <= k < 16 :: m[k] == 0
  {
    hide W;
    if LastWords(m) == m {
      forall k | 0 <= k < 16
        ensures m[k] == 0
      {
        RepeatsZero(m, k);
      }
    }
    if forall k | 0 <= k < 16 :: m[k] == 0 {
      forall k | 0 <= k < 16
        ensures LastWords(m)[k] == m[k]
      {
        ZeroSchedule(m, 64 + k);
      }
    }
  }
}
