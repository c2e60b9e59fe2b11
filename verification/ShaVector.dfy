/** A digest that FIPS 180 publishes, computed with the definitions of this model: the
    message is the three letters abc. */
module ShaVector {
  import opened BigEndian
  import opened Sha
  import opened ShaCode

  /** The sixteen schedule words to come, and the working variables. */
  datatype Frame = Frame(w0: bv32, w1: bv32, w2: bv32, w3: bv32, w4: bv32, w5: bv32, w6: bv32, w7: bv32,
                         w8: bv32, w9: bv32, w10: bv32, w11: bv32, w12: bv32, w13: bv32, w14: bv32, w15: bv32, v: Vars)

  /** One round on the frame. */
  function Next(f: Frame, t: nat): Frame {
    Frame(f.w1, f.w2, f.w3, f.w4, f.w5, f.w6, f.w7, f.w8, f.w9, f.w10, f.w11, f.w12, f.w13, f.w14, f.w15,
          Rol1(Parity4(f.w13, f.w8, f.w2, f.w0)), Rnd(f.v, f.w0, t))
  }

  /** The frame after `t` rounds. */
  ghost predicate Reaches(m: seq<bv32>, h: Vars, t: nat, f: Frame)
    requires |m| == 16
  {
    && f.v == Run(m, h, t)
    && f.w0 == W(m, t) && f.w1 == W(m, t + 1) && f.w2 == W(m, t + 2) && f.w3 == W(m, t + 3) && f.w4 == W(m, t + 4)
    && f.w5 == W(m, t + 5) && f.w6 == W(m, t + 6) && f.w7 == W(m, t + 7) && f.w8 == W(m, t + 8) && f.w9 == W(m, t + 9)
    && f.w10 == W(m, t + 10) && f.w11 == W(m, t + 11) && f.w12 == W(m, t + 12) && f.w13 == W(m, t + 13)
    && f.w14 == W(m, t + 14) && f.w15 == W(m, t + 15)
  }

  lemma Reached(m: seq<bv32>, h: Vars, t: nat, f: Frame)
    requires |m| == 16 && Reaches(m, h, t, f)
    ensures Reaches(m, h, t + 1, Next(f, t))
  {
    RunStep(m, h, t);
    hide W, Run, Rnd, Rol1, Parity4;
    WNext(m, t + 16);
  }

  lemma RunStep(m: seq<bv32>, h: Vars, t: nat)
    requires |m| == 16
    ensures Run(m, h, t + 1) == Rnd(Run(m, h, t), W(m, t), t)
  {
    hide W, Rnd;
  }

  function Five(f: Frame, t: nat): Frame {
    Next(Next(Next(Next(Next(f, t), t + 1), t + 2), t + 3), t + 4)
  }

  lemma FiveReached(m: seq<bv32>, h: Vars, t: nat, f: Frame)
    requires |m| == 16 && Reaches(m, h, t, f)
    ensures Reaches(m, h, t + 5, Five(f, t))
  {
    hide Reaches, Next;
    var f1 := Next(f, t);
    var f2 := Next(f1, t + 1);
    var f3 := Next(f2, t + 2);
    var f4 := Next(f3, t + 3);
    Reached(m, h, t, f);
    Reached(m, h, t + 1, f1);
    Reached(m, h, t + 2, f2);
    Reached(m, h, t + 3, f3);
    Reached(m, h, t + 4, f4);
  }

  function Twenty(f: Frame, t: nat): Frame {
    Five(Five(Five(Five(f, t), t + 5), t + 10), t + 15)
  }

  lemma TwentyReached(m: seq<bv32>, h: Vars, t: nat, f: Frame)
    requires |m| == 16 && Reaches(m, h, t, f)
    ensures Reaches(m, h, t + 20, Twenty(f, t))
  {
    hide Reaches, Five;
    FiveReached(m, h, t, f);
    FiveReached(m, h, t + 5, Five(f, t));
    FiveReached(m, h, t + 10, Five(Five(f, t), t + 5));
    FiveReached(m, h, t + 15, Five(Five(Five(f, t), t + 5), t + 10));
  }

  // ----- The message

  const ABC: seq<byte> := [0x61, 0x62, 0x63]
  const BLOCK: seq<bv32> := [0x61626380, 0, 0, 0, 0, 0, 0, 0, 0, 0, 0, 0, 0, 0, 0, 0x18]

  const F0: Frame :=
    Frame(0x61626380, 0, 0, 0, 0, 0, 0, 0,
          0, 0, 0, 0, 0, 0, 0, 0x00000018,
          Vars(0x67452301, 0xefcdab89, 0x98badcfe, 0x10325476, 0xc3d2e1f0))

  const F20: Frame :=
    Frame(0, 0x00000060, 0x0b131c03, 0x00000030, 0x85898ec1, 0x16263806, 0, 0x00000180,
          0x2c4c700c, 0x000000f0, 0x93afb507, 0x5898e048, 0x8e9a9202, 0x00000600, 0xb131c0f0, 0x16263bc6,
          Vars(0xfd9e1d7d, 0xdc64901d, 0x20aa99ca, 0xd3a49608, 0xc82f758b))

  const F40: Frame :=
    Frame(0xd2e138c4, 0x00000f00, 0x3afb5079, 0x898e04e5, 0xe2ba3c2b, 0x000060c0, 0x053a37cd, 0x74458547,
          0xda9415ed, 0x26380a16, 0x626383a1, 0x4ebf54de, 0x3835b44b, 0x0000f600, 0x1e84c7a3, 0x98e04d98,
          Vars(0x32de1cba, 0x4c986405, 0xf718e5cf, 0x03d447f6, 0xf72eec32))

  const F60: Frame :=
    Frame(0x7ba06619, 0x6380aea2, 0x0ae55269, 0x627b49a1, 0x7cd45c9d, 0x000f0000, 0xfb50753a, 0xec6765e8,
          0xba3c2be2, 0x0060c000, 0x3a37cd05, 0x458546f4, 0xb8599dd6, 0x380a1a26, 0x01e02203, 0xe7cc3456,
          Vars(0x3f52de5a, 0x09d785fd, 0x3498bfd4, 0xf211824f, 0xd79915ab))

  const F80: Frame :=
    Frame(0x7e577ce2, 0x07ef2103, 0x8544e945, 0xeb39dab8, 0xc205991a, 0x80aecb63, 0x7d84ca48, 0x7b499b62,
          0x8e8010a8, 0x4b5b8a77, 0x3216b69a, 0x0507e88d, 0x705bee96, 0x60c0ff00, 0xa28362d0, 0x1da6b91d,
          Vars(0x42541b35, 0x5738d5e1, 0x21834873, 0x681e6df6, 0xd8fdf6ad))

  lemma Rounds0()
    ensures Twenty(F0, 0) == F20
  {
  }

  lemma Rounds20()
    ensures Twenty(F20, 20) == F40
  {
  }

  lemma Rounds40()
    ensures Twenty(F40, 40) == F60
  {
  }

  lemma Rounds60()
    ensures Twenty(F60, 60) == F80
  {
  }

  lemma Started()
    ensures Reaches(BLOCK, H0, 0, F0)
  {
    hide Reaches;
    FirstFrame(BLOCK, H0, F0);
  }

  lemma FirstFrame(m: seq<bv32>, h: Vars, f: Frame)
    requires |m| == 16 && f.v == h
    requires f.w0 == m[0] && f.w1 == m[1] && f.w2 == m[2] && f.w3 == m[3] && f.w4 == m[4] && f.w5 == m[5]
    requires f.w6 == m[6] && f.w7 == m[7] && f.w8 == m[8] && f.w9 == m[9] && f.w10 == m[10] && f.w11 == m[11]
    requires f.w12 == m[12] && f.w13 == m[13] && f.w14 == m[14] && f.w15 == m[15]
    ensures Reaches(m, h, 0, f)
  {
    hide W, Run;
    RunZero(m, h);
    forall t: nat | t < 16
      ensures W(m, t) == m[t]
    {
      Early(m, t);
    }
  }

  lemma Early(m: seq<bv32>, t: nat)
    requires |m| == 16 && t < 16
    ensures W(m, t) == m[t]
  {
  }

  lemma Finished()
    ensures Run(BLOCK, H0, 80) == F80.v
  {
    hide Reaches, Twenty;
    Started();
    TwentyReached(BLOCK, H0, 0, F0);
    Rounds0();
    TwentyReached(BLOCK, H0, 20, F20);
    Rounds20();
    TwentyReached(BLOCK, H0, 40, F40);
    Rounds40();
    TwentyReached(BLOCK, H0, 60, F60);
    Rounds60();
    LastFrame(BLOCK, H0, 80, F80);
  }

  lemma LastFrame(m: seq<bv32>, h: Vars, t: nat, f: Frame)
    requires |m| == 16 && Reaches(m, h, t, f)
    ensures Run(m, h, t) == f.v
  {
    hide Run, W;
  }

  lemma PaddedLetters()
    ensures |Pad(ABC)| == 64 && Words(Pad(ABC)) == BLOCK
  {
    PaddedBytes();
    hide Pad;
    var p := Pad(ABC);
    var m := Words(p);
    assert Word(0x61, 0x62, 0x63, 0x80) == 0x61626380 && Word(0, 0, 0, 0) == 0 && Word(0, 0, 0, 0x18) == 0x18;
    hide Word;
    forall i | 0 <= i < 16
      ensures m[i] == BLOCK[i]
    {
      assert m[i] == Word(p[4 * i], p[4 * i + 1], p[4 * i + 2], p[4 * i + 3]);
      if 1 <= i < 15 {
        ZeroWord(i);
      }
    }
  }

  lemma ZeroWord(i: nat)
    requires 1 <= i < 15
    ensures BLOCK[i] == 0
  {
  }

  lemma PaddedBytes()
    ensures |Pad(ABC)| == 64 && Pad(ABC)[0] == 0x61 && Pad(ABC)[1] == 0x62 && Pad(ABC)[2] == 0x63
    ensures Pad(ABC)[3] == 0x80 && Pad(ABC)[63] == 0x18 && forall k | 4 <= k < 63 :: Pad(ABC)[k] == 0
  {
    Length();
    hide Len8;
    var e: seq<byte> := [0, 0, 0, 0, 0, 0, 0, 0x18];
    var p := ABC + [0x80] + Zeros(52) + e;
    assert Pad(ABC) == p;
    forall k | 4 <= k < 63
      ensures p[k] == 0
    {
      if k >= 56 {
        assert p[k] == e[k - 56];
      }
    }
  }

  lemma Length()
    ensures Len8(8 * |ABC|) == [0, 0, 0, 0, 0, 0, 0, 0x18]
  {
    assert 24 / Pow256(0) % 256 == 24 && Pow256(0) == 1;
    forall i: nat | 1 <= i < 8
      ensures ByteOf(24, i) == 0
    {
      PowAtLeast(i);
    }
    assert ByteOf(24, 0) == 0x18;
  }

  lemma PowAtLeast(i: nat)
    requires i >= 1
    ensures 24 / Pow256(i) == 0
  {
    var p := Pow256(i);
    assert p == 256 * Pow256(i - 1);
    Small(24, p);
  }

  lemma Small(x: nat, p: nat)
    requires x < p
    ensures x / p == 0
  {
  }

  /** The digest of abc is a9993e36 4706816a ba3e2571 7850c26c 9cd0d89d. */
  lemma AbcDigest()
    ensures Sha1(ABC) == [
      0xa9, 0x99, 0x3e, 0x36, 0x47, 0x06, 0x81, 0x6a, 0xba, 0x3e,
      0x25, 0x71, 0x78, 0x50, 0xc2, 0x6c, 0x9c, 0xd0, 0xd8, 0x9d]
  {
    hide Run, Pad, Words, Hash, Digest, Compress;
    PaddedLetters();
    OneBlock(H0, Pad(ABC));
    Compressed();
    Shown();
  }

  lemma OneBlock(h: Vars, p: seq<byte>)
    requires |p| == 64
    ensures Hash(h, p) == Compress(h, Words(p))
  {
    hide Compress, Words;
    assert p[..0] == [] && p[0..] == p && Hash(h, []) == h;
  }

  lemma Compressed()
    ensures Compress(H0, BLOCK) == Vars(0xa9993e36, 0x4706816a, 0xba3e2571, 0x7850c26c, 0x9cd0d89d)
  {
    hide Run;
    Finished();
  }

  lemma Shown()
    ensures Digest(Vars(0xa9993e36, 0x4706816a, 0xba3e2571, 0x7850c26c, 0x9cd0d89d)) == [
      0xa9, 0x99, 0x3e, 0x36, 0x47, 0x06, 0x81, 0x6a, 0xba, 0x3e,
      0x25, 0x71, 0x78, 0x50, 0xc2, 0x6c, 0x9c, 0xd0, 0xd8, 0x9d]
  {
  }

  // ----- The constants

  /** The round constants are the integer parts of 2^30 times the roots of 2, 3, 5 and 10. */
  lemma RoundConstants(t: nat)
    requires t < 80
    ensures var k, n := Kt(t) as int, if t < 20 then 2 else if t < 40 then 3 else if t < 60 then 5 else 10;
      k * k <= n * 0x1000_0000_0000_0000 < (k + 1) * (k + 1)
  {
    assert Kt(t) as int == if t < 20 then 0x5A827999 else if t < 40 then 0x6ED9EBA1 else if t < 60 then 0x8F1BBCDC
                           else 0xCA62C1D6;
  }
}
