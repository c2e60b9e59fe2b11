/** Bytes, and 32-bit words as four bytes, most significant first. */
module BigEndian {

  type byte = bv8

  function Xor8(a: byte, b: byte): byte {
    a ^ b
  }

  function Word(a: byte, b: byte, c: byte, d: byte): bv32 {
    ((a as bv32) << 24) | ((b as bv32) << 16) | ((c as bv32) << 8) | (d as bv32)
  }

  function Byte(w: bv32, n: bv6): byte
    requires n <= 24
  {
    ((w >> n) & 0xFF) as bv8
  }

  lemma WordBytes(w: bv32)
    ensures Word(Byte(w, 24), Byte(w, 16), Byte(w, 8), Byte(w, 0)) == w
  {
  }

  lemma BytesWord(a: byte, b: byte, c: byte, d: byte)
    ensures var w := Word(a, b, c, d); Byte(w, 24) == a && Byte(w, 16) == b && Byte(w, 8) == c && Byte(w, 0) == d
  {
  }
}
