/** The routines of crypt/sha1.c at work on their context. */
module ShaCode {
  import opened Memory
  import opened Sha

  // ----- The 16-word schedule, kept in place of the block

  function Lo(t: nat): nat {
    if t < 16 then 0 else t - 16
  }

  /** Before step `t` the 16 words hold the last 16 of the schedule. */
  ghost predicate Holds(l: seq<bv32>, m: seq<bv32>, t: nat)
    requires |m| == 16
  {
    |l| == 16 && forall u: nat | Lo(t) <= u < Lo(t) + 16 :: l[u % 16] == W(m, u)
  }

  lemma HoldsAt(l: seq<bv32>, m: seq<bv32>, t: nat, u: nat)
    requires |m| == 16 && Holds(l, m, t) && Lo(t) <= u < Lo(t) + 16
    ensures |l| == 16 && l[u % 16] == W(m, u)
  {
  }

  lemma HoldsFirst(m: seq<bv32>)
    requires |m| == 16
    ensures Holds(m, m, 0)
  {
  }

  lemma HoldsNext(l: seq<bv32>, m: seq<bv32>, t: nat)
    requires |m| == 16 && Holds(l, m, t)
    ensures Holds(if t < 16 then l else l[t % 16 := W(m, t)], m, t + 1)
  {
    hide W;
    if t >= 16 {
      var n := l[t % 16 := W(m, t)];
      forall u: nat | Lo(t + 1) <= u < Lo(t + 1) + 16
        ensures n[u % 16] == W(m, u)
      {
        if u != t {
          assert u % 16 != t % 16;
        }
      }
    }
  }

  /** blk0 and blk: the next word of the schedule. */
  method Blk(l: array<bv32>, ghost m: seq<bv32>, t: nat) returns (w: bv32)
    requires |m| == 16 && l.Length == 16 && Holds(l[..], m, t)
    modifies l
    ensures w == W(m, t) && Holds(l[..], m, t + 1)
  {
    hide W, Rol1, Parity4, Holds;
    HoldsNext(l[..], m, t);
    if t < 16 {
      HoldsAt(l[..], m, t, t);
      w := l[t];
    } else {
      HoldsAt(l[..], m, t, t - 3);
      HoldsAt(l[..], m, t, t - 8);
      HoldsAt(l[..], m, t, t - 14);
      HoldsAt(l[..], m, t, t - 16);
      Indices(t);
      WNext(m, t);
      w := Rol1(Parity4(l[(t + 13) % 16], l[(t + 8) % 16], l[(t + 2) % 16], l[t % 16]));
      l[t % 16] := w;
    }
  }

  lemma Indices(t: nat)
    requires t >= 16
    ensures (t + 13) % 16 == (t - 3) % 16 && (t + 8) % 16 == (t - 8) % 16 && (t + 2) % 16 == (t - 14) % 16
    ensures t % 16 == (t - 16) % 16
  {
  }

  lemma WNext(m: seq<bv32>, t: nat)
    requires |m| == 16 && t >= 16
    ensures W(m, t) == Rol1(Parity4(W(m, t - 3), W(m, t - 8), W(m, t - 14), W(m, t - 16)))
  {
  }

  // ----- SHA1_Transform

  lemma RunNext(m: seq<bv32>, h: Vars, t: nat, v: Vars, blk: bv32)
    requires |m| == 16 && v == Run(m, h, t) && blk == W(m, t)
    ensures Vars(MacroZ(t, v.a, v.b, v.c, v.d, v.e, blk), v.a, Rol30(v.b), v.c, v.d) == Run(m, h, t + 1)
  {
    hide W, MacroZ, Rnd;
    MacroIs(t, v.a, v.b, v.c, v.d, v.e, blk);
  }

  /** The 80 unrolled macros, five at a time: after five the names are back in place. */
  method EightyRounds(l: array<bv32>, ghost m: seq<bv32>, h: Vars) returns (r: Vars)
    requires |m| == 16 && l.Length == 16 && l[..] == m
    modifies l
    ensures r == Run(m, h, 80) && Holds(l[..], m, 80)
  {
    hide W, Holds, MacroZ, Rol30, Run;
    HoldsFirst(m);
    RunZero(m, h);
    var a, b, c, d, e := h.a, h.b, h.c, h.d, h.e;
    for g := 0 to 16
      invariant Vars(a, b, c, d, e) == Run(m, h, 5 * g) && Holds(l[..], m, 5 * g)
    {
      var t := 5 * g;
      e, b := Macro(l, m, h, t, a, b, c, d, e);
      d, a := Macro(l, m, h, t + 1, e, a, b, c, d);
      c, e := Macro(l, m, h, t + 2, d, e, a, b, c);
      b, d := Macro(l, m, h, t + 3, c, d, e, a, b);
      a, c := Macro(l, m, h, t + 4, b, c, d, e, a);
    }
    r := Vars(a, b, c, d, e);
  }

  /** One of R0 to R4. */
  method Macro(l: array<bv32>, ghost m: seq<bv32>, ghost h: Vars, t: nat, v: bv32, w: bv32, x: bv32, y: bv32, z: bv32)
    returns (nz: bv32, nw: bv32)
    requires |m| == 16 && l.Length == 16 && Holds(l[..], m, t) && Vars(v, w, x, y, z) == Run(m, h, t)
    modifies l
    ensures Holds(l[..], m, t + 1) && Vars(nz, v, nw, x, y) == Run(m, h, t + 1)
  {
    hide W, Holds, MacroZ, Rol30, Run;
    var blk := Blk(l, m, t);
    RunNext(m, h, t, Vars(v, w, x, y, z), blk);
    nz, nw := MacroZ(t, v, w, x, y, z, blk), Rol30(w);
  }

  lemma RunZero(m: seq<bv32>, h: Vars)
    requires |m| == 16
    ensures Run(m, h, 0) == h
  {
  }

  // ----- Counting bits in two words

  function Low(n: nat): int {
    8 * n % TWO32
  }

  function High(n: nat): int {
    8 * n / TWO32 % TWO32
  }

  /** The two-word addition of SHA1_Update is addition modulo 2^64. */
  lemma CountAdds(n: nat, len: nat)
    requires len < TWO32
    ensures var s := 8 * len % TWO32; var c0 := (Low(n) + s) % TWO32;
      && c0 == Low(n + len)
      && (High(n) + (if c0 < s then 1 else 0) + len / 0x2000_0000) % TWO32 == High(n + len)
  {
    var s, q, a := 8 * len % TWO32, len / 0x2000_0000, 8 * n / TWO32;
    assert 8 * len == TWO32 * q + s;
    assert 8 * n == TWO32 * a + Low(n);
    var carry := if Low(n) + s >= TWO32 then 1 else 0;
    var c0 := Low(n) + s - TWO32 * carry;
    assert 8 * (n + len) == TWO32 * (a + q + carry) + c0;
    DivModIs(8 * (n + len), a + q + carry, c0);
    ModAdds(a, carry + q);
  }

  lemma DivModIs(x: nat, q: nat, r: nat)
    requires x == TWO32 * q + r && r < TWO32
    ensures x / TWO32 == q && x % TWO32 == r
  {
  }

  lemma ModAdds(a: nat, b: nat)
    ensures (a % TWO32 + b) % TWO32 == (a + b) % TWO32
  {
    var q := a / TWO32;
    assert a + b == TWO32 * q + (a % TWO32 + b);
    ModShift(a % TWO32 + b, q);
  }

  lemma ModShift(x: nat, q: nat)
    ensures (TWO32 * q + x) % TWO32 == x % TWO32
  {
    var p, r := x / TWO32, x % TWO32;
    DivModIs(TWO32 * q + x, q + p, r);
  }
}
