/** The block and buffer routines of crypt/des.c. */
module DesCode {
  import opened Memory
  import opened BigEndian
  import opened DesKeys
  import opened Des
  import opened DesBytes

  /** A loop of eight times two DES_ROUNDs on `x` and `y`, reading the schedule from
      word `at` on. */
  method SixteenRounds(sb: Boxes, sk: array<bv32>, at: nat, x0: bv32, y0: bv32) returns (x: bv32, y: bv32)
    requires at % 2 == 0 && at + 32 <= sk.Length
    ensures at / 2 + 16 <= |Pairs(sk[..])|
    ensures Block(x, y) == Rounds(sb, Pairs(sk[..])[at / 2..at / 2 + 16], Block(x0, y0))
  {
    hide F, Step, Pairs, Mix;
    ghost var b, ks := Block(x0, y0), Pairs(sk[..])[at / 2..at / 2 + 16];
    x, y := x0, y0;
    RoundsNil(sb, b);
    assert ks[..0] == [];
    for i := 0 to 8
      invariant Block(x, y) == Rounds(sb, ks[..2 * i], b)
    {
      PairOf(sk[..], at, 2 * i);
      PairOf(sk[..], at, 2 * i + 1);
      ghost var before := Block(x, y);
      x := Round(sb, sk, at + 4 * i, y, x);
      y := Round(sb, sk, at + 4 * i + 2, x, y);
      TwoSteps(sb, ks[2 * i], ks[2 * i + 1], before, Block(x, y));
      RoundsTwo(sb, ks, 2 * i, b);
    }
    assert ks[..16] == ks;
  }

  /** DES_ROUND. */
  method Round(sb: Boxes, sk: array<bv32>, at: nat, v: bv32, w: bv32) returns (r: bv32)
    requires at + 1 < sk.Length
    ensures r == Mix(w, F(sb, v, Pair(sk[at], sk[at + 1])))
  {
    hide Even, Odd, Mix, Rot4;
    var t := Mix(sk[at], v);
    r := Mix(w, Even(sb, t));
    var u := Mix(sk[at + 1], Rot4(v));
    r := Mix(r, Odd(sb, u));
    MixAssoc(w, Even(sb, t), Odd(sb, u));
  }

  lemma RoundsNil(sb: Boxes, b: Block)
    ensures Rounds(sb, [], b) == b
  {
  }

  lemma PairOf(sk: seq<bv32>, at: nat, i: nat)
    requires at % 2 == 0 && at + 32 <= |sk| && i < 16
    ensures at / 2 + 16 <= |Pairs(sk)| && Pairs(sk)[at / 2..at / 2 + 16][i] == Pair(sk[at + 2 * i], sk[at + 2 * i + 1])
  {
  }

  lemma TwoSteps(sb: Boxes, k: Pair, l: Pair, a: Block, c: Block)
    requires c.x == Mix(a.x, F(sb, a.y, k)) && c.y == Mix(a.y, F(sb, c.x, l))
    ensures c == Step(sb, l, Step(sb, k, a))
  {
    hide F, Mix;
  }

  lemma RoundsTwo(sb: Boxes, ks: seq<Pair>, n: nat, b: Block)
    requires n + 2 <= |ks|
    ensures Rounds(sb, ks[..n + 2], b) == Step(sb, ks[n + 1], Step(sb, ks[n], Rounds(sb, ks[..n], b)))
  {
    hide Step, Rounds;
    assert ks[..n + 2] == ks[..n + 1] + [ks[n + 1]] && ks[..n + 1] == ks[..n] + [ks[n]];
    RoundsSplit(sb, ks[..n + 1], [ks[n + 1]], b);
    RoundsSplit(sb, ks[..n], [ks[n]], b);
    RoundsOne(sb, ks[n], Rounds(sb, ks[..n], b));
    RoundsOne(sb, ks[n + 1], Rounds(sb, ks[..n + 1], b));
  }

  /** des_crypt_ecb or des3_crypt_ecb, by the length of the schedule. The fused triple
      form is three DES encryptions in a row. */
  method CryptBlock(sb: Boxes, sk: array<bv32>, b: Block) returns (r: Block)
    requires sk.Length == 32 || sk.Length == 96
    ensures |Pairs(sk[..])| == sk.Length / 2 && r == Cipher(sb, Pairs(sk[..]), b)
  {
    hide IP, FP, Rounds, Pairs;
    var m := IP(b);
    var x, y := SixteenRounds(sb, sk, 0, m.x, m.y);
    ghost var ks := Pairs(sk[..]);
    if sk.Length == 96 {
      y, x := SixteenRounds(sb, sk, 32, y, x);
      x, y := SixteenRounds(sb, sk, 64, x, y);
      Fused(sb, ks[..16], ks[16..32], ks[32..], b);
      assert ks[32..48] == ks[32..];
    } else {
      assert ks[0..16] == ks;
    }
    r := FP(Block(y, x));
  }

  // ----- Bytes

  /** `a` with the eight bytes at `at` replaced. */
  ghost predicate Wrote(a: seq<byte>, b: seq<byte>, at: nat, w: seq<byte>)
    requires at + 8 <= |a|
  {
    |w| == 8 && b == a[..at] + w + a[at + 8..]
  }

  /** The block routine on its byte buffers, which may be the same one. */
  method Ecb(sb: Boxes, sk: array<bv32>, input: array<byte>, output: array<byte>, at: nat)
    requires (sk.Length == 32 || sk.Length == 96) && at + 8 <= input.Length && at + 8 <= output.Length
    modifies output
    ensures |Pairs(sk[..])| == sk.Length / 2
    ensures Wrote(old(output[..]), output[..], at, Put(Cipher(sb, Pairs(sk[..]), Get(old(input[at..at + 8])))))
  {
    hide Cipher, Get, Put, Pairs;
    var r := CryptBlock(sb, sk, Get(input[at..at + 8]));
    var p := Put(r);
    Copy8(p, output, at);
  }

  method Copy8(p: seq<byte>, output: array<byte>, at: nat)
    requires |p| == 8 && at + 8 <= output.Length
    modifies output
    ensures Wrote(old(output[..]), output[..], at, p)
  {
    CopyTo(output, at, p);
    assert old(output[..])[..at] == old(output[..at]) && old(output[..])[at + 8..] == old(output[at + 8..]);
  }

  /** output = input ^ iv, eight bytes. */
  method Xor(input: array<byte>, iv: array<byte>, output: array<byte>, at: nat)
    requires iv.Length == 8 && iv != output && at + 8 <= input.Length && at + 8 <= output.Length
    modifies output
    ensures forall m | 0 <= m < output.Length ::
      output[m] == if at <= m < at + 8 then Xor8(old(input[..])[m], iv[m - at]) else old(output[m])
  {
    hide Xor8;
    ghost var s, t := output[..], input[..];
    for i := 0 to 8
      invariant forall m | 0 <= m < output.Length ::
        output[m] == if at <= m < at + i then Xor8(t[m], iv[m - at]) else s[m]
      invariant forall m | at + i <= m < input.Length :: input[m] == t[m]
    {
      output[at + i] := Xor8(input[at + i], iv[i]);
    }
  }

  function BlockAt(s: seq<byte>, j: nat): Block
    requires 8 * j + 8 <= |s|
  {
    Get(s[8 * j..8 * j + 8])
  }

  function Blocks(s: seq<byte>, n: nat): (r: seq<Block>)
    requires 8 * n <= |s|
    ensures |r| == n
  {
    seq(n, j requires 0 <= j < n => BlockAt(s, j))
  }

  /** One round of the encryption loop: exclusive or, encrypt in place, keep as the
      next chaining value. */
  method EncryptOne(sb: Boxes, sk: array<bv32>, iv: array<byte>, input: array<byte>, output: array<byte>, j: nat)
    requires (sk.Length == 32 || sk.Length == 96) && iv.Length == 8 && iv != input && iv != output
    requires 8 * j + 8 <= input.Length && 8 * j + 8 <= output.Length
    modifies iv, output
    ensures |Pairs(sk[..])| == sk.Length / 2
    ensures BlockAt(output[..], j) == Cipher(sb, Pairs(sk[..]), XorB(BlockAt(old(input[..]), j), Get(old(iv[..]))))
    ensures Get(iv[..]) == BlockAt(output[..], j)
    ensures Elsewhere(old(output[..]), output[..], j) && (input != output ==> input[..] == old(input[..]))
  {
    hide Cipher, Get, Put, Pairs, XorB;
    ghost var s, v := input[8 * j..8 * j + 8], iv[..];
    ghost var o := output[..];
    Xor(input, iv, output, 8 * j);
    ghost var x := output[8 * j..8 * j + 8];
    XorBytes(s, v, x);
    Ecb(sb, sk, output, output, 8 * j);
    ghost var r := Cipher(sb, Pairs(sk[..]), XorB(Get(s), Get(v)));
    GetPut(r);
    WroteAt(output[..], 8 * j, Put(r));
    CopyIv(iv, output, 8 * j);
  }

  /** Only block `j` may differ. */
  ghost predicate Elsewhere(a: seq<byte>, b: seq<byte>, j: nat) {
    |a| == |b| && forall m | 0 <= m < |a| && !(8 * j <= m < 8 * j + 8) :: b[m] == a[m]
  }

  lemma WroteAt(b: seq<byte>, at: nat, w: seq<byte>)
    requires at + 8 <= |b| && |w| == 8 && exists a: seq<byte> :: |a| == |b| && Wrote(a, b, at, w)
    ensures b[at..at + 8] == w
  {
  }

  method CopyIv(iv: array<byte>, from: array<byte>, at: nat)
    requires iv.Length == 8 && iv != from && at + 8 <= from.Length
    modifies iv
    ensures iv[..] == from[at..at + 8]
  {
    CopyTo(iv, 0, from[at..at + 8]);
  }

  /** One round of the decryption loop; the ciphertext block is kept aside first. */
  method DecryptOne(sb: Boxes, sk: array<bv32>, iv: array<byte>, input: array<byte>, output: array<byte>, j: nat)
    requires (sk.Length == 32 || sk.Length == 96) && iv.Length == 8 && iv != input && iv != output
    requires 8 * j + 8 <= input.Length && 8 * j + 8 <= output.Length
    modifies iv, output
    ensures |Pairs(sk[..])| == sk.Length / 2
    ensures BlockAt(output[..], j) == XorB(Cipher(sb, Pairs(sk[..]), BlockAt(old(input[..]), j)), Get(old(iv[..])))
    ensures Get(iv[..]) == BlockAt(old(input[..]), j)
    ensures Elsewhere(old(output[..]), output[..], j) && (input != output ==> input[..] == old(input[..]))
  {
    hide Cipher, Get, Put, Pairs, XorB;
    ghost var s, v := input[8 * j..8 * j + 8], iv[..];
    var temp := input[8 * j..8 * j + 8];
    Ecb(sb, sk, input, output, 8 * j);
    ghost var r := Cipher(sb, Pairs(sk[..]), Get(s));
    GetPut(r);
    WroteAt(output[..], 8 * j, Put(r));
    ghost var c := output[8 * j..8 * j + 8];
    Xor(output, iv, output, 8 * j);
    XorBytes(c, v, output[8 * j..8 * j + 8]);
    Copy8(temp, iv, 0);
    assert iv[..] == temp;
  }

  // ----- Buffers

  /** Blocks the loop of the CBC routines goes through. */
  function BlockCount(length: int): nat {
    if length <= 0 then 0 else (length + 7) / 8
  }

  lemma BlocksNext(s: seq<byte>, j: nat)
    requires 8 * j + 8 <= |s|
    ensures Blocks(s, j + 1) == Blocks(s, j) + [BlockAt(s, j)]
  {
    hide BlockAt;
  }

  lemma BlocksKept(a: seq<byte>, b: seq<byte>, j: nat)
    requires 8 * j + 8 <= |a| && Elsewhere(a, b, j)
    ensures Blocks(b, j) == Blocks(a, j)
  {
    forall i | 0 <= i < j
      ensures BlockAt(b, i) == BlockAt(a, i)
    {
      assert b[8 * i..8 * i + 8] == a[8 * i..8 * i + 8];
    }
  }

  lemma SameBlock(a: seq<byte>, b: seq<byte>, j: nat)
    requires 8 * j + 8 <= |a| == |b| && forall m | 8 * j <= m < |a| :: b[m] == a[m]
    ensures BlockAt(b, j) == BlockAt(a, j)
  {
    assert b[8 * j..8 * j + 8] == a[8 * j..8 * j + 8];
  }

  lemma ChainNext(iv: Block, c: seq<Block>, x: Block)
    ensures Chain(iv, c + [x]) == x
  {
  }

  lemma EncNext(sb: Boxes, ks: seq<Pair>, iv: Block, p: seq<Block>, x: Block)
    requires |ks| == 16 || |ks| == 48
    ensures var c := CbcEnc(sb, ks, iv, p); CbcEnc(sb, ks, iv, p + [x]) == c + [Cipher(sb, ks, XorB(x, Chain(iv, c)))]
  {
    hide Cipher;
    CbcEncSplit(sb, ks, iv, p, [x]);
    assert [x][1..] == [];
  }

  lemma DecNext(sb: Boxes, ks: seq<Pair>, iv: Block, c: seq<Block>, x: Block)
    requires |ks| == 16 || |ks| == 48
    ensures CbcDec(sb, ks, iv, c + [x]) == CbcDec(sb, ks, iv, c) + [XorB(Cipher(sb, ks, x), Chain(iv, c))]
  {
    hide Cipher;
    CbcDecSplit(sb, ks, iv, c, [x]);
    assert [x][1..] == [];
  }

  /** des_crypt_cbc and des3_crypt_cbc, encrypting. A length that is not a multiple of
      eight is rounded up. */
  method CbcEncrypt(sb: Boxes, sk: array<bv32>, length: int, iv: array<byte>, input: array<byte>, output: array<byte>)
    requires (sk.Length == 32 || sk.Length == 96) && iv.Length == 8 && iv != input && iv != output
    requires 8 * BlockCount(length) <= input.Length && 8 * BlockCount(length) <= output.Length
    modifies iv, output
    ensures |Pairs(sk[..])| == sk.Length / 2
    ensures var n, v := BlockCount(length), Get(old(iv[..]));
      && Blocks(output[..], n) == CbcEnc(sb, Pairs(sk[..]), v, Blocks(old(input[..]), n))
      && Get(iv[..]) == Chain(v, Blocks(output[..], n))
      && forall m | 8 * n <= m < output.Length :: output[m] == old(output[m])
  {
    hide Cipher, Get, Put, Pairs, XorB, CbcEnc, Blocks, BlockAt;
    ghost var s, o, v, ks := input[..], output[..], Get(iv[..]), Pairs(sk[..]);
    PairsCount(sk[..]);
    var len, j := length, 0;
    NoBlocks(sb, ks, v, s, o);
    while len > 0
      invariant len == length - 8 * j && j <= BlockCount(length)
      invariant Blocks(output[..], j) == CbcEnc(sb, ks, v, Blocks(s, j))
      invariant Get(iv[..]) == Chain(v, Blocks(output[..], j))
      invariant forall m | 8 * j <= m < output.Length :: output[m] == o[m]
      invariant forall m | 8 * j <= m < input.Length :: input[m] == s[m]
    {
      ghost var b := output[..];
      SameBlock(s, input[..], j);
      EncryptOne(sb, sk, iv, input, output, j);
      BlocksNext(s, j);
      BlocksNext(output[..], j);
      BlocksKept(b, output[..], j);
      EncNext(sb, ks, v, Blocks(s, j), BlockAt(s, j));
      ChainNext(v, Blocks(output[..], j), BlockAt(output[..], j));
      len, j := len - 8, j + 1;
    }
  }

  lemma PairsCount(sk: seq<bv32>)
    ensures |Pairs(sk)| == |sk| / 2
  {
  }

  lemma NoBlocks(sb: Boxes, ks: seq<Pair>, v: Block, s: seq<byte>, o: seq<byte>)
    requires |ks| == 16 || |ks| == 48
    ensures Blocks(s, 0) == Blocks(o, 0) == CbcEnc(sb, ks, v, []) == CbcDec(sb, ks, v, []) == [] && Chain(v, []) == v
  {
  }

  /** The same, decrypting. */
  method CbcDecrypt(sb: Boxes, sk: array<bv32>, length: int, iv: array<byte>, input: array<byte>, output: array<byte>)
    requires (sk.Length == 32 || sk.Length == 96) && iv.Length == 8 && iv != input && iv != output
    requires 8 * BlockCount(length) <= input.Length && 8 * BlockCount(length) <= output.Length
    modifies iv, output
    ensures |Pairs(sk[..])| == sk.Length / 2
    ensures var n, v := BlockCount(length), Get(old(iv[..]));
      && Blocks(output[..], n) == CbcDec(sb, Pairs(sk[..]), v, Blocks(old(input[..]), n))
      && Get(iv[..]) == Chain(v, Blocks(old(input[..]), n))
      && forall m | 8 * n <= m < output.Length :: output[m] == old(output[m])
  {
    hide Cipher, Get, Put, Pairs, XorB, CbcDec, Blocks, BlockAt;
    ghost var s, o, v, ks := input[..], output[..], Get(iv[..]), Pairs(sk[..]);
    PairsCount(sk[..]);
    var len, j := length, 0;
    NoBlocks(sb, ks, v, s, o);
    while len > 0
      invariant len == length - 8 * j && j <= BlockCount(length)
      invariant Blocks(output[..], j) == CbcDec(sb, ks, v, Blocks(s, j)) && Get(iv[..]) == Chain(v, Blocks(s, j))
      invariant forall m | 8 * j <= m < output.Length :: output[m] == o[m]
      invariant forall m | 8 * j <= m < input.Length :: input[m] == s[m]
    {
      ghost var b := output[..];
      SameBlock(s, input[..], j);
      DecryptOne(sb, sk, iv, input, output, j);
      BlocksNext(s, j);
      BlocksNext(output[..], j);
      BlocksKept(b, output[..], j);
      DecNext(sb, ks, v, Blocks(s, j), BlockAt(s, j));
      ChainNext(v, Blocks(s, j), BlockAt(s, j));
      len, j := len - 8, j + 1;
    }
  }

  /** Whole bytes come back: equal blocks are equal bytes. */
  lemma {:induction false} BlocksAreBytes(a: seq<byte>, b: seq<byte>, n: nat)
    requires 8 * n <= |a| && 8 * n <= |b| && Blocks(a, n) == Blocks(b, n)
    ensures a[..8 * n] == b[..8 * n]
  {
    if n == 0 {
      assert a[..0] == b[..0] == [];
    } else {
      hide BlockAt, Blocks, Get;
      BlocksNext(a, n - 1);
      BlocksNext(b, n - 1);
      assert Blocks(a, n)[..n - 1] == Blocks(a, n - 1) && Blocks(b, n)[..n - 1] == Blocks(b, n - 1);
      assert Blocks(a, n)[n - 1] == BlockAt(a, n - 1) && Blocks(b, n)[n - 1] == BlockAt(b, n - 1);
      BlocksAreBytes(a, b, n - 1);
      BlockIsBytes(a, b, n - 1);
      assert a[..8 * n] == a[..8 * n - 8] + a[8 * n - 8..8 * n] && b[..8 * n] == b[..8 * n - 8] + b[8 * n - 8..8 * n];
    }
  }

  lemma BlockIsBytes(a: seq<byte>, b: seq<byte>, j: nat)
    requires 8 * j + 8 <= |a| && 8 * j + 8 <= |b| && BlockAt(a, j) == BlockAt(b, j)
    ensures a[8 * j..8 * j + 8] == b[8 * j..8 * j + 8]
  {
    hide Get;
    PutGet(a[8 * j..8 * j + 8]);
    PutGet(b[8 * j..8 * j + 8]);
  }

  /** What CbcDecrypt, with the reversed schedule and the same vector, makes of what
      CbcEncrypt wrote is the plaintext. */
  lemma BufferRoundTrip(sb: Boxes, ks: seq<Pair>, v: Block, p: seq<byte>, c: seq<byte>, q: seq<byte>, n: nat)
    requires (|ks| == 16 || |ks| == 48) && 8 * n <= |p| && 8 * n <= |c| && 8 * n <= |q|
    requires Blocks(c, n) == CbcEnc(sb, ks, v, Blocks(p, n)) && Blocks(q, n) == CbcDec(sb, Rev(ks), v, Blocks(c, n))
    ensures q[..8 * n] == p[..8 * n]
  {
    hide Blocks, CbcEnc, CbcDec;
    CbcUndo(sb, ks, v, Blocks(p, n));
    BlocksAreBytes(q, p, n);
  }
}
