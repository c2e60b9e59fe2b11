/** crypt/des.c on one block: the permutations, the Feistel rounds and their
    inverses. The S-box tables and the subkeys are parameters; nothing here depends
    on their values. */
module Des {
  import opened DesKeys

  /** The two halves of a block. */
  datatype Block = Block(x: bv32, y: bv32)

  /** The eight S-box tables, by index. */
  datatype Boxes = Boxes(s1: bv32 -> bv32, s2: bv32 -> bv32, s3: bv32 -> bv32, s4: bv32 -> bv32,
                         s5: bv32 -> bv32, s6: bv32 -> bv32, s7: bv32 -> bv32, s8: bv32 -> bv32)

  type Pair = SubkeyPair<bv32>

  function RotL(v: bv32): bv32 {
    (v << 1) | (v >> 31)
  }

  function RotR(v: bv32): bv32 {
    (v << 31) | (v >> 1)
  }

  // ----- The steps of the permutations

  /** T = ((X >> n) ^ Y) & m; Y ^= T; X ^= (T << n) */
  function Swap4(b: Block): Block {
    var t := ((b.x >> 4) ^ b.y) & 0x0F0F0F0F;
    Block(b.x ^ (t << 4), b.y ^ t)
  }

  function Swap16(b: Block): Block {
    var t := ((b.x >> 16) ^ b.y) & 0x0000FFFF;
    Block(b.x ^ (t << 16), b.y ^ t)
  }

  function Swap2(b: Block): Block {
    var t := ((b.y >> 2) ^ b.x) & 0x33333333;
    Block(b.x ^ t, b.y ^ (t << 2))
  }

  function Swap8(b: Block): Block {
    var t := ((b.y >> 8) ^ b.x) & 0x00FF00FF;
    Block(b.x ^ t, b.y ^ (t << 8))
  }

  function SwapA(b: Block): Block {
    var t := (b.x ^ b.y) & 0xAAAAAAAA;
    Block(b.x ^ t, b.y ^ t)
  }

  /** DES_IP. */
  function IP(b: Block): Block {
    var s := Swap8(Swap2(Swap16(Swap4(b))));
    var u := SwapA(Block(s.x, RotL(s.y)));
    Block(RotL(u.x), u.y)
  }

  /** DES_FP. */
  function FP(b: Block): Block {
    var s := SwapA(Block(RotR(b.x), b.y));
    Swap4(Swap16(Swap2(Swap8(Block(s.x, RotR(s.y))))))
  }

  lemma Undo4(b: Block)
    ensures Swap4(Swap4(b)) == b
  {
  }

  lemma Undo16(b: Block)
    ensures Swap16(Swap16(b)) == b
  {
  }

  lemma Undo2(b: Block)
    ensures Swap2(Swap2(b)) == b
  {
  }

  lemma Undo8(b: Block)
    ensures Swap8(Swap8(b)) == b
  {
  }

  lemma UndoA(b: Block)
    ensures SwapA(SwapA(b)) == b
  {
  }

  lemma RotsUndo(v: bv32)
    ensures RotL(RotR(v)) == v && RotR(RotL(v)) == v
  {
  }

  /** The final permutation inverts the initial one. */
  lemma FinalInverts(b: Block)
    ensures FP(IP(b)) == b
  {
    hide RotL, RotR, Swap2, Swap4, Swap8, Swap16, SwapA;
    var c := Swap4(b);
    var d := Swap16(c);
    var e := Swap2(d);
    var s := Swap8(e);
    var u := SwapA(Block(s.x, RotL(s.y)));
    RotsUndo(u.x);
    UndoA(Block(s.x, RotL(s.y)));
    RotsUndo(s.y);
    Undo8(e);
    Undo2(d);
    Undo16(c);
    Undo4(b);
  }

  /** And the initial one inverts the final one. */
  lemma InitialInverts(b: Block)
    ensures IP(FP(b)) == b
  {
    hide RotL, RotR, Swap2, Swap4, Swap8, Swap16, SwapA;
    var s := SwapA(Block(RotR(b.x), b.y));
    var c := Block(s.x, RotR(s.y));
    var d := Swap8(c);
    var e := Swap2(d);
    var f := Swap16(e);
    Undo4(f);
    Undo16(e);
    Undo2(d);
    Undo8(c);
    RotsUndo(s.y);
    UndoA(Block(RotR(b.x), b.y));
    RotsUndo(b.x);
  }

  // ----- Rounds

  /** The S-boxes fed by the first subkey word, and by the second. */
  function Even(sb: Boxes, t: bv32): bv32 {
    sb.s8(t & 0x3F) ^ sb.s6((t >> 8) & 0x3F) ^ sb.s4((t >> 16) & 0x3F) ^ sb.s2((t >> 24) & 0x3F)
  }

  function Odd(sb: Boxes, t: bv32): bv32 {
    sb.s7(t & 0x3F) ^ sb.s5((t >> 8) & 0x3F) ^ sb.s3((t >> 16) & 0x3F) ^ sb.s1((t >> 24) & 0x3F)
  }

  /** What DES_ROUND adds to the other half. */
  function F(sb: Boxes, v: bv32, k: Pair): bv32 {
    Mix(Even(sb, Mix(k.a, v)), Odd(sb, Mix(k.b, Rot4(v))))
  }

  function Rot4(v: bv32): bv32 {
    (v << 28) | (v >> 4)
  }

  function Mix(a: bv32, f: bv32): bv32 {
    a ^ f
  }

  /** A Feistel round in textbook form: the halves change places. */
  function Step(sb: Boxes, k: Pair, b: Block): Block {
    Block(b.y, Mix(b.x, F(sb, b.y, k)))
  }

  function Rounds(sb: Boxes, ks: seq<Pair>, b: Block): Block {
    if ks == [] then b else Rounds(sb, ks[1..], Step(sb, ks[0], b))
  }

  function Flip(b: Block): Block {
    Block(b.y, b.x)
  }

  lemma {:induction false} RoundsSplit(sb: Boxes, a: seq<Pair>, c: seq<Pair>, b: Block)
    ensures Rounds(sb, a + c, b) == Rounds(sb, c, Rounds(sb, a, b))
  {
    hide Step;
    if a == [] {
      assert a + c == c;
    } else {
      assert (a + c)[1..] == a[1..] + c;
      RoundsSplit(sb, a[1..], c, Step(sb, a[0], b));
    }
  }

  lemma MixUndo(a: bv32, f: bv32)
    ensures Mix(Mix(a, f), f) == a
  {
  }

  lemma MixAssoc(a: bv32, f: bv32, g: bv32)
    ensures Mix(Mix(a, f), g) == Mix(a, Mix(f, g))
  {
  }

  lemma StepUndo(sb: Boxes, k: Pair, b: Block)
    ensures Step(sb, k, Flip(Step(sb, k, b))) == Flip(b)
  {
    hide F, Mix;
    MixUndo(b.x, F(sb, b.y, k));
  }

  lemma RoundsOne(sb: Boxes, k: Pair, b: Block)
    ensures Rounds(sb, [k], b) == Step(sb, k, b)
  {
    hide Step;
    assert [k][1..] == [];
  }

  /** The rounds with the subkeys in reverse order take the halves back. */
  lemma {:induction false} RoundsUndo(sb: Boxes, ks: seq<Pair>, b: Block)
    ensures Rounds(sb, Rev(ks), Flip(Rounds(sb, ks, b))) == Flip(b)
  {
    hide Step;
    if ks != [] {
      var m := Step(sb, ks[0], b);
      RoundsUndo(sb, ks[1..], m);
      RoundsSplit(sb, Rev(ks[1..]), [ks[0]], Flip(Rounds(sb, ks[1..], m)));
      RoundsOne(sb, ks[0], Flip(m));
      StepUndo(sb, ks[0], b);
    }
  }

  // ----- One block

  /** Section "Enciphering" of FIPS 46-3, for any sequence of subkeys. */
  function Crypt(sb: Boxes, ks: seq<Pair>, b: Block): Block {
    FP(Flip(Rounds(sb, ks, IP(b))))
  }

  /** Decryption, with the subkeys in reverse order, undoes encryption. */
  lemma CryptUndo(sb: Boxes, ks: seq<Pair>, b: Block)
    ensures Crypt(sb, Rev(ks), Crypt(sb, ks, b)) == b
  {
    hide IP, FP, Rounds;
    var m := Flip(Rounds(sb, ks, IP(b)));
    InitialInverts(m);
    RoundsUndo(sb, ks, IP(b));
    FinalInverts(b);
  }

  /** The inner permutations of three encryptions in a row cancel. */
  lemma Fused(sb: Boxes, k1: seq<Pair>, k2: seq<Pair>, k3: seq<Pair>, b: Block)
    ensures Crypt(sb, k3, Crypt(sb, k2, Crypt(sb, k1, b)))
         == FP(Flip(Rounds(sb, k3, Flip(Rounds(sb, k2, Flip(Rounds(sb, k1, IP(b))))))))
  {
    hide IP, FP, Rounds;
    var m := Flip(Rounds(sb, k1, IP(b)));
    InitialInverts(m);
    InitialInverts(Flip(Rounds(sb, k2, m)));
  }

  function Crypt3(sb: Boxes, k1: seq<Pair>, k2: seq<Pair>, k3: seq<Pair>, b: Block): Block {
    Crypt(sb, k3, Crypt(sb, k2, Crypt(sb, k1, b)))
  }

  /** Triple decryption undoes triple encryption. */
  lemma Crypt3Undo(sb: Boxes, k1: seq<Pair>, k2: seq<Pair>, k3: seq<Pair>, b: Block)
    ensures Crypt3(sb, Rev(k3), Rev(k2), Rev(k1), Crypt3(sb, k1, k2, k3, b)) == b
  {
    hide Crypt;
    CryptUndo(sb, k3, Crypt(sb, k2, Crypt(sb, k1, b)));
    CryptUndo(sb, k2, Crypt(sb, k1, b));
    CryptUndo(sb, k1, b);
  }
}
