/** Blocks as eight bytes, most significant first, and cipher block chaining over
    blocks. */
module DesBytes {
  import opened BigEndian
  import opened DesKeys
  import opened Des

  /** GET_ULONG_BE, twice. */
  function Get(s: seq<byte>): Block
    requires |s| == 8
  {
    Block(Word(s[0], s[1], s[2], s[3]), Word(s[4], s[5], s[6], s[7]))
  }

  /** PUT_ULONG_BE, twice. */
  function Put(b: Block): (s: seq<byte>)
    ensures |s| == 8
  {
    [Byte(b.x, 24), Byte(b.x, 16), Byte(b.x, 8), Byte(b.x, 0),
     Byte(b.y, 24), Byte(b.y, 16), Byte(b.y, 8), Byte(b.y, 0)]
  }

  lemma WordXor(a: byte, b: byte, c: byte, d: byte, e: byte, f: byte, g: byte, h: byte)
    ensures Word(Xor8(a, e), Xor8(b, f), Xor8(c, g), Xor8(d, h)) == Mix(Word(a, b, c, d), Word(e, f, g, h))
  {
  }

  lemma GetPut(b: Block)
    ensures Get(Put(b)) == b
  {
    hide Word, Byte;
    WordBytes(b.x);
    WordBytes(b.y);
  }

  lemma PutGet(s: seq<byte>)
    requires |s| == 8
    ensures Put(Get(s)) == s
  {
    hide Word, Byte;
    BytesWord(s[0], s[1], s[2], s[3]);
    BytesWord(s[4], s[5], s[6], s[7]);
  }

  function XorB(a: Block, b: Block): Block {
    Block(Mix(a.x, b.x), Mix(a.y, b.y))
  }

  lemma XorBytes(a: seq<byte>, b: seq<byte>, c: seq<byte>)
    requires |a| == |b| == |c| == 8 && forall i | 0 <= i < 8 :: c[i] == Xor8(a[i], b[i])
    ensures Get(c) == XorB(Get(a), Get(b))
  {
    hide Word, Xor8, Mix;
    WordXor(a[0], a[1], a[2], a[3], b[0], b[1], b[2], b[3]);
    WordXor(a[4], a[5], a[6], a[7], b[4], b[5], b[6], b[7]);
  }

  lemma XorBUndo(a: Block, b: Block)
    ensures XorB(XorB(a, b), b) == a
  {
    hide Mix;
    MixUndo(a.x, b.x);
    MixUndo(a.y, b.y);
  }

  // ----- Block ciphers: one DES or three

  function Cipher(sb: Boxes, ks: seq<Pair>, b: Block): Block
    requires |ks| == 16 || |ks| == 48
  {
    if |ks| == 16 then Crypt(sb, ks, b) else Crypt3(sb, ks[..16], ks[16..32], ks[32..], b)
  }

  lemma RevThree(ks: seq<Pair>)
    requires |ks| == 48
    ensures Rev(ks)[..16] == Rev(ks[32..]) && Rev(ks)[16..32] == Rev(ks[16..32]) && Rev(ks)[32..] == Rev(ks[..16])
  {
  }

  /** For DES and 3DES alike, the reversed schedule undoes the schedule. */
  lemma CipherUndo(sb: Boxes, ks: seq<Pair>, b: Block)
    requires |ks| == 16 || |ks| == 48
    ensures Cipher(sb, Rev(ks), Cipher(sb, ks, b)) == b
  {
    hide Crypt, Crypt3, Rev;
    if |ks| == 16 {
      CryptUndo(sb, ks, b);
    } else {
      RevThree(ks);
      Crypt3Undo(sb, ks[..16], ks[16..32], ks[32..], b);
    }
  }

  // ----- Cipher block chaining (section 6.2 of NIST SP 800-38A)

  function CbcEnc(sb: Boxes, ks: seq<Pair>, iv: Block, p: seq<Block>): (r: seq<Block>)
    requires |ks| == 16 || |ks| == 48
    ensures |r| == |p|
    decreases |p|
  {
    if p == [] then []
    else
      var c := Cipher(sb, ks, XorB(p[0], iv));
      [c] + CbcEnc(sb, ks, c, p[1..])
  }

  function CbcDec(sb: Boxes, ks: seq<Pair>, iv: Block, c: seq<Block>): (r: seq<Block>)
    requires |ks| == 16 || |ks| == 48
    ensures |r| == |c|
    decreases |c|
  {
    if c == [] then [] else [XorB(Cipher(sb, ks, c[0]), iv)] + CbcDec(sb, ks, c[0], c[1..])
  }

  /** The chaining value after some ciphertext. */
  function Chain(iv: Block, c: seq<Block>): Block {
    if c == [] then iv else c[|c| - 1]
  }

  /** Each ciphertext block is the encrypted sum of its plaintext block and the ciphertext
      block before it. */
  lemma {:induction false} CbcBlock(sb: Boxes, ks: seq<Pair>, iv: Block, p: seq<Block>, i: nat)
    requires (|ks| == 16 || |ks| == 48) && i < |p|
    ensures var c := CbcEnc(sb, ks, iv, p); c[i] == Cipher(sb, ks, XorB(p[i], if i == 0 then iv else c[i - 1]))
    decreases |p|
  {
    hide Cipher, XorB;
    if i > 0 {
      CbcBlock(sb, ks, Cipher(sb, ks, XorB(p[0], iv)), p[1..], i - 1);
    }
  }

  /** And each plaintext block the sum of its decrypted block and the one before. */
  lemma {:induction false} CbcPlain(sb: Boxes, ks: seq<Pair>, iv: Block, c: seq<Block>, i: nat)
    requires (|ks| == 16 || |ks| == 48) && i < |c|
    ensures CbcDec(sb, ks, iv, c)[i] == XorB(Cipher(sb, ks, c[i]), if i == 0 then iv else c[i - 1])
    decreases |c|
  {
    hide Cipher, XorB;
    if i > 0 {
      CbcPlain(sb, ks, c[0], c[1..], i - 1);
    }
  }

  lemma {:induction false} CbcUndo(sb: Boxes, ks: seq<Pair>, iv: Block, p: seq<Block>)
    requires |ks| == 16 || |ks| == 48
    ensures CbcDec(sb, Rev(ks), iv, CbcEnc(sb, ks, iv, p)) == p
    decreases |p|
  {
    hide Cipher, Rev;
    if p != [] {
      var x := XorB(p[0], iv);
      var c := Cipher(sb, ks, x);
      CipherUndo(sb, ks, x);
      XorBUndo(p[0], iv);
      CbcUndo(sb, ks, c, p[1..]);
      assert CbcEnc(sb, ks, iv, p)[1..] == CbcEnc(sb, ks, c, p[1..]);
    }
  }

  /** A buffer may be split across calls: the second starts from the chaining value
      the first left behind. */
  lemma {:induction false} CbcEncSplit(sb: Boxes, ks: seq<Pair>, iv: Block, p: seq<Block>, q: seq<Block>)
    requires |ks| == 16 || |ks| == 48
    ensures var c := CbcEnc(sb, ks, iv, p); CbcEnc(sb, ks, iv, p + q) == c + CbcEnc(sb, ks, Chain(iv, c), q)
    decreases |p|
  {
    hide Cipher;
    if p == [] {
      assert p + q == q;
    } else {
      var c := Cipher(sb, ks, XorB(p[0], iv));
      assert (p + q)[1..] == p[1..] + q;
      CbcEncSplit(sb, ks, c, p[1..], q);
      assert Chain(iv, CbcEnc(sb, ks, iv, p)) == Chain(c, CbcEnc(sb, ks, c, p[1..]));
    }
  }

  lemma {:induction false} CbcDecSplit(sb: Boxes, ks: seq<Pair>, iv: Block, p: seq<Block>, q: seq<Block>)
    requires |ks| == 16 || |ks| == 48
    ensures CbcDec(sb, ks, iv, p + q) == CbcDec(sb, ks, iv, p) + CbcDec(sb, ks, Chain(iv, p), q)
    decreases |p|
  {
    hide Cipher;
    if p == [] {
      assert p + q == q;
    } else {
      assert (p + q)[1..] == p[1..] + q;
      CbcDecSplit(sb, ks, p[0], p[1..], q);
      assert Chain(iv, p) == Chain(p[0], p[1..]);
    }
  }
}
