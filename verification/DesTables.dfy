/** The tables of FIPS 46-3 against the shifts and masks of crypt/des.c: where the initial
    permutation takes every bit, and which bits reach the S-boxes. */
module DesTables {
  import opened DesKeys
  import opened Des

  /** The table IP of FIPS 46-3: the input bit that becomes output bit `8 * r + c + 1`. Its
      rows are 58 50 .. 2, 60 52 .. 4, 62 54 .. 6, 64 56 .. 8, 57 49 .. 1, 59 51 .. 3,
      61 53 .. 5 and 63 55 .. 7. Bits are numbered from 1 at the most significant end. */
  function IpTable(r: nat, c: nat): (i: nat)
    requires r < 8 && c < 8
    ensures 1 <= i <= 64
  {
    (if r < 4 then 58 + 2 * r else 49 + 2 * r) - 8 * c
  }

  /** The table E of FIPS 46-3: bit `c` of the six for S-box `j`. Its rows are 32 1 .. 5,
      4 5 .. 9, 8 9 .. 13 and so on to 28 29 .. 32 1. */
  function ETable(j: nat, c: nat): (i: nat)
    requires 1 <= j <= 8 && c < 6
    ensures 1 <= i <= 32
  {
    (4 * j + c + 27) % 32 + 1
  }

  function BitV(v: bv32, i: nat): bv32
    requires 1 <= i <= 32
  {
    (v >> (32 - i)) & 1
  }

  function BitOf(b: Block, i: nat): bv32
    requires 1 <= i <= 64
  {
    if i <= 32 then BitV(b.x, i) else BitV(b.y, i - 32)
  }

  /** The permuted halves; the code keeps each rotated left by one. */
  function Permuted(b: Block): Block {
    Block(RotR(IP(b).x), RotR(IP(b).y))
  }

  /** Output bit `i` is input bit `j`. */
  predicate Moves(b: Block, i: nat, j: nat)
    requires 1 <= i <= 64 && 1 <= j <= 64
  {
    BitOf(Permuted(b), i) == BitOf(b, j)
  }

  lemma FirstRow(b: Block)
    ensures Moves(b, 1, 58) && Moves(b, 2, 50) && Moves(b, 3, 42) && Moves(b, 4, 34)
    ensures Moves(b, 5, 26) && Moves(b, 6, 18) && Moves(b, 7, 10) && Moves(b, 8, 2)
  {
  }

  lemma SecondRow(b: Block)
    ensures Moves(b, 9, 60) && Moves(b, 10, 52) && Moves(b, 11, 44) && Moves(b, 12, 36)
    ensures Moves(b, 13, 28) && Moves(b, 14, 20) && Moves(b, 15, 12) && Moves(b, 16, 4)
  {
  }

  lemma ThirdRow(b: Block)
    ensures Moves(b, 17, 62) && Moves(b, 18, 54) && Moves(b, 19, 46) && Moves(b, 20, 38)
    ensures Moves(b, 21, 30) && Moves(b, 22, 22) && Moves(b, 23, 14) && Moves(b, 24, 6)
  {
  }

  lemma FourthRow(b: Block)
    ensures Moves(b, 25, 64) && Moves(b, 26, 56) && Moves(b, 27, 48) && Moves(b, 28, 40)
    ensures Moves(b, 29, 32) && Moves(b, 30, 24) && Moves(b, 31, 16) && Moves(b, 32, 8)
  {
  }

  lemma FifthRow(b: Block)
    ensures Moves(b, 33, 57) && Moves(b, 34, 49) && Moves(b, 35, 41) && Moves(b, 36, 33)
    ensures Moves(b, 37, 25) && Moves(b, 38, 17) && Moves(b, 39, 9) && Moves(b, 40, 1)
  {
  }

  lemma SixthRow(b: Block)
    ensures Moves(b, 41, 59) && Moves(b, 42, 51) && Moves(b, 43, 43) && Moves(b, 44, 35)
    ensures Moves(b, 45, 27) && Moves(b, 46, 19) && Moves(b, 47, 11) && Moves(b, 48, 3)
  {
  }

  lemma SeventhRow(b: Block)
    ensures Moves(b, 49, 61) && Moves(b, 50, 53) && Moves(b, 51, 45) && Moves(b, 52, 37)
    ensures Moves(b, 53, 29) && Moves(b, 54, 21) && Moves(b, 55, 13) && Moves(b, 56, 5)
  {
  }

  lemma EighthRow(b: Block)
    ensures Moves(b, 57, 63) && Moves(b, 58, 55) && Moves(b, 59, 47) && Moves(b, 60, 39)
    ensures Moves(b, 61, 31) && Moves(b, 62, 23) && Moves(b, 63, 15) && Moves(b, 64, 7)
  {
  }

  /** The initial permutation takes every bit where the table says. */
  lemma InitialPermutation(b: Block, r: nat, c: nat)
    requires r < 8 && c < 8
    ensures BitOf(Permuted(b), 8 * r + c + 1) == BitOf(b, IpTable(r, c))
  {
    hide BitOf, Permuted;
    assert Moves(b, 8 * r + c + 1, IpTable(r, c)) by {
      hide Moves;
      match r
      case 0 => FirstRow(b);
      case 1 => SecondRow(b);
      case 2 => ThirdRow(b);
      case 3 => FourthRow(b);
      case 4 => FifthRow(b);
      case 5 => SixthRow(b);
      case 6 => SeventhRow(b);
      case _ => EighthRow(b);
      assert c == 0 || c == 1 || c == 2 || c == 3 || c == 4 || c == 5 || c == 6 || c == 7;
    }
  }

  // ----- What the S-boxes are fed

  /** The bits of the right half that row `j` of E selects. */
  function Selected(r: bv32, j: nat): bv32
    requires 1 <= j <= 8
  {
    Six(r, ETable(j, 0), ETable(j, 1), ETable(j, 2), ETable(j, 3), ETable(j, 4), ETable(j, 5))
  }

  function Six(r: bv32, a: nat, b: nat, c: nat, d: nat, e: nat, f: nat): bv32
    requires 1 <= a <= 32 && 1 <= b <= 32 && 1 <= c <= 32 && 1 <= d <= 32 && 1 <= e <= 32 && 1 <= f <= 32
  {
    (BitV(r, a) << 5) | (BitV(r, b) << 4) | (BitV(r, c) << 3) | (BitV(r, d) << 2) | (BitV(r, e) << 1) | BitV(r, f)
  }

  /** Six bits of a word, from bit `at` on. */
  function Bits6(k: bv32, at: nat): bv32
    requires at <= 24
  {
    (k >> at) & 0x3F
  }

  lemma Mixed0(k: bv32, v: bv32)
    ensures Bits6(Mix(k, v), 0) == Mix(Bits6(v, 0), Bits6(k, 0))
  {
  }

  lemma Mixed8(k: bv32, v: bv32)
    ensures Bits6(Mix(k, v), 8) == Mix(Bits6(v, 8), Bits6(k, 8))
  {
  }

  lemma Mixed16(k: bv32, v: bv32)
    ensures Bits6(Mix(k, v), 16) == Mix(Bits6(v, 16), Bits6(k, 16))
  {
  }

  lemma Mixed24(k: bv32, v: bv32)
    ensures Bits6(Mix(k, v), 24) == Mix(Bits6(v, 24), Bits6(k, 24))
  {
  }

  /** Where the selected bits are in the half as the code keeps it. */
  lemma EvenBoxes(r: bv32)
    ensures Bits6(RotL(r), 0) == Six(r, 28, 29, 30, 31, 32, 1)
    ensures Bits6(RotL(r), 8) == Six(r, 20, 21, 22, 23, 24, 25)
    ensures Bits6(RotL(r), 16) == Six(r, 12, 13, 14, 15, 16, 17)
    ensures Bits6(RotL(r), 24) == Six(r, 4, 5, 6, 7, 8, 9)
  {
  }

  lemma OddBoxes(r: bv32)
    ensures Bits6(Rot4(RotL(r)), 0) == Six(r, 24, 25, 26, 27, 28, 29)
    ensures Bits6(Rot4(RotL(r)), 8) == Six(r, 16, 17, 18, 19, 20, 21)
    ensures Bits6(Rot4(RotL(r)), 16) == Six(r, 8, 9, 10, 11, 12, 13)
    ensures Bits6(Rot4(RotL(r)), 24) == Six(r, 32, 1, 2, 3, 4, 5)
  {
  }

  lemma Row8(r: bv32)
    ensures Selected(r, 8) == Bits6(RotL(r), 0)
  {
    hide Six, Bits6, RotL, Rot4;
    EvenBoxes(r);
  }

  lemma Row6(r: bv32)
    ensures Selected(r, 6) == Bits6(RotL(r), 8)
  {
    hide Six, Bits6, RotL, Rot4;
    EvenBoxes(r);
  }

  lemma Row4(r: bv32)
    ensures Selected(r, 4) == Bits6(RotL(r), 16)
  {
    hide Six, Bits6, RotL, Rot4;
    EvenBoxes(r);
  }

  lemma Row2(r: bv32)
    ensures Selected(r, 2) == Bits6(RotL(r), 24)
  {
    hide Six, Bits6, RotL, Rot4;
    EvenBoxes(r);
  }

  lemma Row7(r: bv32)
    ensures Selected(r, 7) == Bits6(Rot4(RotL(r)), 0)
  {
    hide Six, Bits6, RotL, Rot4;
    OddBoxes(r);
  }

  lemma Row5(r: bv32)
    ensures Selected(r, 5) == Bits6(Rot4(RotL(r)), 8)
  {
    hide Six, Bits6, RotL, Rot4;
    OddBoxes(r);
  }

  lemma Row3(r: bv32)
    ensures Selected(r, 3) == Bits6(Rot4(RotL(r)), 16)
  {
    hide Six, Bits6, RotL, Rot4;
    OddBoxes(r);
  }

  lemma Row1(r: bv32)
    ensures Selected(r, 1) == Bits6(Rot4(RotL(r)), 24)
  {
    hide Six, Bits6, RotL, Rot4;
    OddBoxes(r);
  }

  lemma AllMixed(k: bv32, v: bv32)
    ensures Bits6(Mix(k, v), 0) == Mix(Bits6(v, 0), Bits6(k, 0))
    ensures Bits6(Mix(k, v), 8) == Mix(Bits6(v, 8), Bits6(k, 8))
    ensures Bits6(Mix(k, v), 16) == Mix(Bits6(v, 16), Bits6(k, 16))
    ensures Bits6(Mix(k, v), 24) == Mix(Bits6(v, 24), Bits6(k, 24))
  {
    hide Mix, Bits6;
    Mixed0(k, v);
    Mixed8(k, v);
    Mixed16(k, v);
    Mixed24(k, v);
  }

  /** What S-box `j` is fed: the bits that row `j` of E selects, xored with its six bits of
      the subkey. */
  function Fed(r: bv32, k: Pair, j: nat): bv32
    requires 1 <= j <= 8
  {
    Mix(Selected(r, j), KeyBits(k, j))
  }

  /** The subkey bits of S-box `j`: the even boxes take theirs from the first word, the odd
      ones from the second, the last box from the low end. */
  function KeyBits(k: Pair, j: nat): bv32
    requires 1 <= j <= 8
  {
    match j
    case 8 => Bits6(k.a, 0)
    case 6 => Bits6(k.a, 8)
    case 4 => Bits6(k.a, 16)
    case 2 => Bits6(k.a, 24)
    case 7 => Bits6(k.b, 0)
    case 5 => Bits6(k.b, 8)
    case 3 => Bits6(k.b, 16)
    case _ => Bits6(k.b, 24)
  }

  /** The round function on the right half `r`. */
  lemma RoundFunction(sb: Boxes, r: bv32, k: Pair)
    ensures F(sb, RotL(r), k) ==
      Mix(Four(sb.s8(Fed(r, k, 8)), sb.s6(Fed(r, k, 6)), sb.s4(Fed(r, k, 4)), sb.s2(Fed(r, k, 2))),
          Four(sb.s7(Fed(r, k, 7)), sb.s5(Fed(r, k, 5)), sb.s3(Fed(r, k, 3)), sb.s1(Fed(r, k, 1))))
  {
    hide Mix, Bits6, RotL, Rot4, Six, Even, Odd, Four;
    hide Selected;
    AllMixed(k.a, RotL(r));
    AllMixed(k.b, Rot4(RotL(r)));
    Row8(r);
    Row6(r);
    Row4(r);
    Row2(r);
    Row7(r);
    Row5(r);
    Row3(r);
    Row1(r);
    EvenIs(sb, Mix(k.a, RotL(r)));
    OddIs(sb, Mix(k.b, Rot4(RotL(r))));
  }

  function Four(a: bv32, b: bv32, c: bv32, d: bv32): bv32 {
    a ^ b ^ c ^ d
  }

  lemma EvenIs(sb: Boxes, t: bv32)
    ensures Even(sb, t) == Four(sb.s8(Bits6(t, 0)), sb.s6(Bits6(t, 8)), sb.s4(Bits6(t, 16)), sb.s2(Bits6(t, 24)))
  {
  }

  lemma OddIs(sb: Boxes, t: bv32)
    ensures Odd(sb, t) == Four(sb.s7(Bits6(t, 0)), sb.s5(Bits6(t, 8)), sb.s3(Bits6(t, 16)), sb.s1(Bits6(t, 24)))
  {
  }
}
