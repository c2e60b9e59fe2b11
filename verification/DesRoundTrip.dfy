/** Key setup, encryption and decryption of crypt/des.c one after the other: for every
    key form the buffer is back where it was. Keys are given as the subkey words that
    des_setkey derives from them. */
module DesRoundTrip {
  import opened BigEndian
  import opened DesKeys
  import opened Des
  import opened DesBytes
  import opened DesCode

  /** The second schedule is the first in reverse. */
  ghost predicate Opposite(esk: seq<bv32>, dsk: seq<bv32>) {
    |esk| == |dsk| && Pairs(dsk) == Rev(Pairs(esk))
  }

  /** CBC there and back, in place, from the same vector. */
  method CbcBothWays(sb: Boxes, esk: array<bv32>, dsk: array<bv32>, length: int, iv: seq<byte>, data: array<byte>)
    requires (esk.Length == 32 || esk.Length == 96) && Opposite(esk[..], dsk[..])
    requires |iv| == 8 && 8 * BlockCount(length) <= data.Length
    modifies data
    ensures data[..] == old(data[..])
  {
    hide Blocks, CbcEnc, CbcDec, Chain, Get, Pairs, Rev;
    ghost var p, n := data[..], BlockCount(length);
    var v := VectorOf(iv);
    CbcEncrypt(sb, esk, length, v, data, data);
    ghost var c := data[..];
    var w := VectorOf(iv);
    CbcDecrypt(sb, dsk, length, w, data, data);
    BufferRoundTrip(sb, Pairs(esk[..]), Get(iv), p, c, data[..], n);
    assert forall m | 8 * n <= m < |p| :: data[m] == p[m];
    assert data[..] == data[..][..8 * n] + data[..][8 * n..] && p == p[..8 * n] + p[8 * n..];
  }

  method VectorOf(iv: seq<byte>) returns (v: array<byte>)
    ensures fresh(v) && v[..] == iv
  {
    v := new byte[|iv|](i requires 0 <= i < |iv| => iv[i]);
  }

  /** One block there and back, in place. */
  method EcbBothWays(sb: Boxes, esk: array<bv32>, dsk: array<bv32>, data: array<byte>, at: nat)
    requires (esk.Length == 32 || esk.Length == 96) && Opposite(esk[..], dsk[..]) && at + 8 <= data.Length
    modifies data
    ensures data[..] == old(data[..])
  {
    hide Cipher, Get, Put, Pairs, Rev;
    ghost var p := data[..];
    ghost var b := p[at..at + 8];
    Ecb(sb, esk, data, data, at);
    ghost var c := Cipher(sb, Pairs(esk[..]), Get(b));
    assert data[at..at + 8] == Put(c);
    Ecb(sb, dsk, data, data, at);
    GetPut(c);
    CipherUndo(sb, Pairs(esk[..]), Get(b));
    PutGet(b);
    assert data[..] == p[..at] + b + p[at + 8..] == p;
  }

  // ----- The three key forms

  method WordsOf(k: seq<bv32>) returns (sk: array<bv32>)
    requires |k| == 32
    ensures fresh(sk) && sk.Length == 32 && sk[..] == k
  {
    sk := new bv32[32](i requires 0 <= i < 32 => k[i]);
  }

  /** 96 words with `a`, `b` and `c` in the three parts. */
  method Words3(a: seq<bv32>, b: seq<bv32>, c: seq<bv32>) returns (sk: array<bv32>)
    requires |a| == |b| == |c| == 32
    ensures fresh(sk) && sk.Length == 96 && sk[..32] == a && sk[32..64] == b && sk[64..] == c
  {
    var s := a + b + c;
    sk := new bv32[96](i requires 0 <= i < |s| => s[i]);
    assert sk[..] == s;
    assert sk[..32] == sk[..][..32] == a && sk[32..64] == sk[..][32..64] == b && sk[64..] == sk[..][64..] == c;
  }

  /** The schedules of des_setkey_enc and des_setkey_dec. */
  method Schedules1(k: seq<bv32>) returns (esk: array<bv32>, dsk: array<bv32>)
    requires |k| == 32
    ensures fresh(esk) && fresh(dsk) && esk.Length == 32 && Opposite(esk[..], dsk[..])
  {
    hide Pairs, Rev;
    esk := WordsOf(k);
    dsk := WordsOf(k);
    ReversePairs(dsk);
  }

  /** The schedules of des3_set2key_enc and des3_set2key_dec. */
  method Schedules2(k1: seq<bv32>, k2: seq<bv32>) returns (esk: array<bv32>, dsk: array<bv32>)
    requires |k1| == |k2| == 32
    ensures fresh(esk) && fresh(dsk) && esk.Length == 96 && Opposite(esk[..], dsk[..])
  {
    hide Pairs, Rev;
    var zero := seq(32, _ => 0 as bv32);
    esk := Words3(k1, zero, zero);
    dsk := Words3(zero, k2, zero);
    Set2Key(esk, dsk);
    SchedulesReverse(Pairs(k1), Pairs(k2), Pairs(k1));
  }

  /** The schedules of des3_set3key_enc and des3_set3key_dec. */
  method Schedules3(k1: seq<bv32>, k2: seq<bv32>, k3: seq<bv32>) returns (esk: array<bv32>, dsk: array<bv32>)
    requires |k1| == |k2| == |k3| == 32
    ensures fresh(esk) && fresh(dsk) && esk.Length == 96 && Opposite(esk[..], dsk[..])
  {
    hide Pairs, Rev;
    var zero := seq(32, _ => 0 as bv32);
    esk := Words3(k1, zero, k3);
    dsk := Words3(zero, k2, zero);
    Set3Key(esk, dsk);
    SchedulesReverse(Pairs(k1), Pairs(k2), Pairs(k3));
  }

  /** DES with any key: CBC over the buffer and ECB on each block undo themselves. */
  method DesRoundTrip(sb: Boxes, k: seq<bv32>, length: int, iv: seq<byte>, data: array<byte>, at: nat)
    requires |k| == 32 && |iv| == 8 && 8 * BlockCount(length) <= data.Length && at + 8 <= data.Length
    modifies data
    ensures data[..] == old(data[..])
  {
    hide Opposite;
    var esk, dsk := Schedules1(k);
    CbcBothWays(sb, esk, dsk, length, iv, data);
    EcbBothWays(sb, esk, dsk, data, at);
  }

  /** Triple DES with two keys. */
  method Des2RoundTrip(sb: Boxes, k1: seq<bv32>, k2: seq<bv32>, length: int, iv: seq<byte>, data: array<byte>, at: nat)
    requires |k1| == |k2| == 32 && |iv| == 8 && 8 * BlockCount(length) <= data.Length && at + 8 <= data.Length
    modifies data
    ensures data[..] == old(data[..])
  {
    hide Opposite;
    var esk, dsk := Schedules2(k1, k2);
    CbcBothWays(sb, esk, dsk, length, iv, data);
    EcbBothWays(sb, esk, dsk, data, at);
  }

  /** Triple DES with three keys. */
  method Des3RoundTrip(sb: Boxes, k1: seq<bv32>, k2: seq<bv32>, k3: seq<bv32>, length: int, iv: seq<byte>,
                       data: array<byte>, at: nat)
    requires |k1| == |k2| == |k3| == 32 && |iv| == 8 && 8 * BlockCount(length) <= data.Length && at + 8 <= data.Length
    modifies data
    ensures data[..] == old(data[..])
  {
    hide Opposite;
    var esk, dsk := Schedules3(k1, k2, k3);
    CbcBothWays(sb, esk, dsk, length, iv, data);
    EcbBothWays(sb, esk, dsk, data, at);
  }
}
