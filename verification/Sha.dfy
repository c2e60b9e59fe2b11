/** SHA-1 as FIPS 180-4 defines it, and the macros of crypt/sha1.c against it. */
module Sha {
  import opened BigEndian

  /** The five working variables. */
  datatype Vars = Vars(a: bv32, b: bv32, c: bv32, d: bv32, e: bv32)

  function Rol1(v: bv32): bv32 {
    (v << 1) | (v >> 31)
  }

  function Rol5(v: bv32): bv32 {
    (v << 5) | (v >> 27)
  }

  function Rol30(v: bv32): bv32 {
    (v << 30) | (v >> 2)
  }

  function Ch(x: bv32, y: bv32, z: bv32): bv32 {
    (x & y) ^ (!x & z)
  }

  function Parity(x: bv32, y: bv32, z: bv32): bv32 {
    x ^ y ^ z
  }

  function Maj(x: bv32, y: bv32, z: bv32): bv32 {
    (x & y) ^ (x & z) ^ (y & z)
  }

  /** Section 4.1.1 of FIPS 180-4. */
  function Ft(t: nat, x: bv32, y: bv32, z: bv32): bv32 {
    if t < 20 then Ch(x, y, z) else if t < 40 then Parity(x, y, z) else if t < 60 then Maj(x, y, z) else Parity(x, y, z)
  }

  /** Section 4.2.1. */
  function Kt(t: nat): bv32 {
    if t < 20 then 0x5A827999 else if t < 40 then 0x6ED9EBA1 else if t < 60 then 0x8F1BBCDC else 0xCA62C1D6
  }

  /** The message schedule of 80 words, section 6.1.2 step 1. */
  function W(m: seq<bv32>, t: nat): bv32
    requires |m| == 16
  {
    if t < 16 then m[t] else Rol1(Parity4(W(m, t - 3), W(m, t - 8), W(m, t - 14), W(m, t - 16)))
  }

  function Parity4(a: bv32, b: bv32, c: bv32, d: bv32): bv32 {
    Xor(Xor(Xor(a, b), c), d)
  }

  function Xor(a: bv32, b: bv32): bv32 {
    a ^ b
  }

  /** One round, section 6.1.2 step 3. */
  function Rnd(v: Vars, w: bv32, t: nat): Vars {
    Vars(Sum5(Rol5(v.a), Ft(t, v.b, v.c, v.d), v.e, Kt(t), w), v.a, Rol30(v.b), v.c, v.d)
  }

  function Sum5(p: bv32, q: bv32, r: bv32, s: bv32, t: bv32): bv32 {
    p + q + r + s + t
  }

  function Run(m: seq<bv32>, v: Vars, t: nat): Vars
    requires |m| == 16
  {
    if t == 0 then v else Rnd(Run(m, v, t - 1), W(m, t - 1), t - 1)
  }

  function Add(v: Vars, u: Vars): Vars {
    Vars(v.a + u.a, v.b + u.b, v.c + u.c, v.d + u.d, v.e + u.e)
  }

  /** What one block does to the hash value. */
  function Compress(h: Vars, m: seq<bv32>): Vars
    requires |m| == 16
  {
    Add(h, Run(m, h, 80))
  }

  // ----- The macros

  /** The boolean functions as R0 to R4 write them. */
  function Pick(w: bv32, x: bv32, y: bv32): bv32 {
    (w & (x ^ y)) ^ y
  }

  function Vote(w: bv32, x: bv32, y: bv32): bv32 {
    ((w | x) & y) | (w & x)
  }

  function Fm(t: nat, w: bv32, x: bv32, y: bv32): bv32 {
    if t < 20 then Pick(w, x, y) else if t < 40 then Parity(w, x, y) else if t < 60 then Vote(w, x, y)
      else Parity(w, x, y)
  }

  lemma ChoiceIdentity(w: bv32, x: bv32, y: bv32)
    ensures (w & (x ^ y)) ^ y == (w & x) ^ (!w & y)
  {
  }

  lemma MajorityIdentity(w: bv32, x: bv32, y: bv32)
    ensures ((w | x) & y) | (w & x) == (w & x) ^ (w & y) ^ (x & y)
  {
  }

  lemma PickIsCh(w: bv32, x: bv32, y: bv32)
    ensures Pick(w, x, y) == Ch(w, x, y)
  {
    ChoiceIdentity(w, x, y);
  }

  lemma VoteIsMaj(w: bv32, x: bv32, y: bv32)
    ensures Vote(w, x, y) == Maj(w, x, y)
  {
    MajorityIdentity(w, x, y);
  }

  lemma SameF(t: nat, w: bv32, x: bv32, y: bv32)
    ensures Fm(t, w, x, y) == Ft(t, w, x, y)
  {
    hide Ch, Maj, Pick, Vote, Parity;
    if t < 20 {
      PickIsCh(w, x, y);
    } else if 40 <= t < 60 {
      VoteIsMaj(w, x, y);
    }
  }

  /** z += f + blk + K + rol */
  function Accumulate(z: bv32, f: bv32, blk: bv32, k: bv32, r: bv32): bv32 {
    z + (f + blk + k + r)
  }

  lemma SumOrder(f: bv32, b: bv32, k: bv32, r: bv32, z: bv32)
    ensures Accumulate(z, f, b, k, r) == Sum5(r, f, z, k, b)
  {
  }

  /** What R0 to R4 make of `z`. */
  function MacroZ(t: nat, v: bv32, w: bv32, x: bv32, y: bv32, z: bv32, blk: bv32): bv32 {
    Accumulate(z, Fm(t, w, x, y), blk, Kt(t), Rol5(v))
  }

  /** A macro is a round in which the variables keep their places and change their
      names. */
  lemma MacroIs(t: nat, v: bv32, w: bv32, x: bv32, y: bv32, z: bv32, blk: bv32)
    ensures Vars(MacroZ(t, v, w, x, y, z, blk), v, Rol30(w), x, y) == Rnd(Vars(v, w, x, y, z), blk, t)
  {
    hide Fm, Ft, Kt, Rol5, Rol30, Sum5, Accumulate;
    SameF(t, w, x, y);
    SumOrder(Ft(t, w, x, y), blk, Kt(t), Rol5(v), z);
  }

  // ----- Messages

  function Words(s: seq<byte>): (m: seq<bv32>)
    requires |s| == 64
    ensures |m| == 16
  {
    seq(16, i requires 0 <= i < 16 => Word(s[4 * i], s[4 * i + 1], s[4 * i + 2], s[4 * i + 3]))
  }

  const H0: Vars := Vars(0x67452301, 0xEFCDAB89, 0x98BADCFE, 0x10325476, 0xC3D2E1F0)

  /** The hash value after a whole number of blocks. */
  function Hash(h: Vars, s: seq<byte>): Vars
    requires |s| % 64 == 0
  {
    if s == [] then h else Compress(Hash(h, s[..|s| - 64]), Words(s[|s| - 64..]))
  }

  function Zeros(n: nat): (r: seq<byte>)
    ensures |r| == n
  {
    seq(n, _ => 0)
  }

  /** A 64-bit number, most significant byte first. */
  function Len8(n: nat): (r: seq<byte>)
    ensures |r| == 8
  {
    seq(8, i requires 0 <= i < 8 => ByteOf(n, 7 - i))
  }

  function ByteOf(n: nat, i: nat): byte {
    (n / Pow256(i) % 256) as bv8
  }

  function Pow256(i: nat): (r: nat)
    ensures r > 0
  {
    if i == 0 then 1 else 256 * Pow256(i - 1)
  }

  /** Padding, section 5.1.1; the length is in bits. */
  function Pad(s: seq<byte>): (r: seq<byte>)
    ensures |r| % 64 == 0
  {
    s + [0x80] + Zeros((119 - |s| % 64) % 64) + Len8(8 * |s|)
  }

  function Digest(h: Vars): (r: seq<byte>)
    ensures |r| == 20
  {
    Bytes4(h.a) + Bytes4(h.b) + Bytes4(h.c) + Bytes4(h.d) + Bytes4(h.e)
  }

  function Bytes4(w: bv32): (r: seq<byte>)
    ensures |r| == 4
  {
    [Byte(w, 24), Byte(w, 16), Byte(w, 8), Byte(w, 0)]
  }

  function Sha1(s: seq<byte>): (r: seq<byte>)
    ensures |r| == 20
  {
    Digest(Hash(H0, Pad(s)))
  }
}
