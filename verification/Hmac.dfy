/** crypt/hmac_sha1.c against section 2 of RFC 2104. */
module Hmac {
  import opened Memory
  import opened BigEndian
  import opened Sha
  import opened ShaCode
  import opened ShaContext

  const IPAD: byte := 0x36
  const OPAD: byte := 0x5c

  // ----- RFC 2104

  /** The key made up to a block: hashed when longer, then filled with zeros. */
  function BlockKey(k: seq<byte>): (r: seq<byte>)
    ensures |r| == 64
  {
    if |k| > 64 then Sha1(k) + Zeros(44) else k + Zeros(64 - |k|)
  }

  function XorPad(k: seq<byte>, c: byte): (r: seq<byte>)
    ensures |r| == |k|
  {
    seq(|k|, i requires 0 <= i < |k| => Xor8(c, k[i]))
  }

  function HmacSha1(k: seq<byte>, m: seq<byte>): (r: seq<byte>)
    ensures |r| == 20
  {
    Sha1(XorPad(BlockKey(k), OPAD) + Sha1(XorPad(BlockKey(k), IPAD) + m))
  }

  /** Section 2 of RFC 2104 with its numbers: the key, hashed if it is longer than 64 bytes,
      filled up with zeros and xored with 0x36 in front of the message and with 0x5c in
      front of that digest. */
  lemma Rfc2104(k: seq<byte>, m: seq<byte>)
    ensures var key := if |k| <= 64 then k else Sha1(k);
      HmacSha1(k, m) == Sha1(Padded64(key, 0x5c) + Sha1(Padded64(key, 0x36) + m))
  {
    hide Sha1;
    var key := if |k| <= 64 then k else Sha1(k);
    assert XorPad(BlockKey(k), IPAD) == Padded64(key, 0x36);
    assert XorPad(BlockKey(k), OPAD) == Padded64(key, 0x5c);
  }

  function Padded64(key: seq<byte>, c: byte): seq<byte> {
    seq(64, i requires 0 <= i < 64 => Xor8(c, if i < |key| then key[i] else 0))
  }

  // ----- The context

  class Context {
    const sha: ShaContext.Context
    const key: array<byte>
    const ipad: array<byte>
    const opad: array<byte>
    var keylen: nat
    var hashkey: bool
    ghost var keymat: seq<byte>

    ghost predicate Shape()
      reads this
    {
      && sha.buffer.Length == 64 && key.Length == ipad.Length == opad.Length == 64
      && key != ipad && key != opad && ipad != opad
      && sha.buffer != key && sha.buffer != ipad && sha.buffer != opad
    }

    /** While the key is fed in: buffered up to a block, hashed beyond. */
    ghost predicate Keying()
      reads this, sha, sha.buffer, key, ipad, opad
    {
      && Shape() && Filled(ipad[..], IPAD) && Filled(opad[..], OPAD)
      && (if hashkey then |keymat| > 64 && keylen == 20 && sha.Valid() && sha.msg == keymat
          else keylen == |keymat| <= 64 && key[..keylen] == keymat)
    }

    /** Ready for messages under the key `keymat`. */
    ghost predicate Keyed()
      reads this, ipad, opad
    {
      Shape() && ipad[..] == XorPad(BlockKey(keymat), IPAD) && opad[..] == XorPad(BlockKey(keymat), OPAD)
    }

    /** In the middle of message `m`. */
    ghost predicate Hashing(m: seq<byte>)
      reads this, sha, sha.buffer, ipad, opad
    {
      Keyed() && sha.Valid() && sha.msg == XorPad(BlockKey(keymat), IPAD) + m
    }

    constructor ()
      ensures Shape() && fresh(sha) && fresh(sha.buffer) && fresh(key) && fresh(ipad) && fresh(opad)
    {
      sha := new ShaContext.Context();
      key := new byte[64](_ => 0);
      ipad := new byte[64](_ => 0);
      opad := new byte[64](_ => 0);
      keylen, hashkey, keymat := 0, false, [];
    }

    /** HMAC_SHA1_Init. */
    method Init()
      requires Shape()
      modifies this, key, ipad, opad
      ensures Keying() && keymat == []
    {
      Memset(key, 0, 64, 0);
      Memset(ipad, 0, 64, IPAD);
      Memset(opad, 0, 64, OPAD);
      keylen, hashkey, keymat := 0, false, [];
    }

    /** HMAC_SHA1_UpdateKey: key material in any chunks. */
    method UpdateKey(data: array<byte>, len: nat)
      requires Keying() && len <= data.Length && len < TWO32 - 64
      requires data != sha.buffer && data != key && data != ipad && data != opad
      modifies this, sha, sha.buffer, key, data
      ensures Keying() && keymat == old(keymat) + old(data[..len])
    {
      hide Filled, Hash, Low, High, Whole;
      ghost var k, d := keymat, data[..len];
      if len < 1 {
        assert d == [];
        return;
      }
      if hashkey || len + keylen > 64 {
        if !hashkey {
          SwitchToHash();
        }
        sha.Update(data, len);
        keymat := k + d;
      } else {
        CopyBytes(key, keylen, data, len);
        keylen := keylen + len;
        keymat := k + d;
      }
    }

    /** The key has outgrown the block: hash what was buffered. */
    method SwitchToHash()
      requires Keying() && !hashkey
      modifies this, sha, sha.buffer, key
      ensures Shape() && Filled(ipad[..], IPAD) && Filled(opad[..], OPAD)
      ensures hashkey && keylen == 20 && sha.Valid() && sha.msg == keymat == old(keymat)
    {
      hide Filled, Hash, Low, High, Whole;
      hashkey := true;
      sha.Init();
      if keylen > 0 {
        sha.Update(key, keylen);
      }
      keylen := 20;
    }

    /** HMAC_SHA1_EndKey: the pads are combined with the key once and for all. */
    method EndKey()
      requires Keying()
      modifies this, sha, sha.buffer, key, ipad, opad
      ensures Keyed() && keymat == old(keymat)
    {
      hide BlockKey, XorPad, Xor8;
      FinishKey();
      for i := 0 to keylen
        invariant Shape() && key[..] == BlockKey(keymat) && keymat == old(keymat) && keylen <= 64
        invariant forall k | keylen <= k < 64 :: key[k] == 0
        invariant forall k | 0 <= k < 64 :: ipad[k] == if k < i then Xor8(IPAD, key[k]) else IPAD
        invariant forall k | 0 <= k < 64 :: opad[k] == if k < i then Xor8(OPAD, key[k]) else OPAD
        modifies ipad, opad
      {
        ipad[i] := Xor8(ipad[i], key[i]);
        opad[i] := Xor8(opad[i], key[i]);
      }
      PadDone(ipad[..], key[..], IPAD, keylen);
      PadDone(opad[..], key[..], OPAD, keylen);
    }

    /** The key buffer becomes the block key. */
    method FinishKey()
      requires Keying()
      modifies sha, sha.buffer, key
      ensures key[..] == BlockKey(keymat) && keylen <= 64 && forall k | keylen <= k < 64 :: key[k] == 0
    {
      hide Sha1;
      if hashkey {
        Memset(key, 0, 64, 0);
        var digest := sha.Final();
        CopyTo(key, 0, digest);
      }
      if keylen < 64 {
        Memset(key, keylen, 64 - keylen, 0);
      }
      assert key[..] == key[..keylen] + Zeros(64 - keylen);
    }

    /** HMAC_SHA1_StartMessage. */
    method StartMessage()
      requires Keyed()
      modifies sha, sha.buffer, ipad
      ensures Hashing([])
    {
      hide XorPad, BlockKey, Hash, Low, High, Whole;
      sha.Init();
      assert ipad[..64] == ipad[..];
      sha.Update(ipad, 64);
    }

    /** HMAC_SHA1_UpdateMessage: the message in any chunks. */
    method UpdateMessage(data: array<byte>, len: nat, ghost m: seq<byte>)
      requires Hashing(m) && len <= data.Length && len <= TWO32 - 64
      requires data != sha.buffer && data != ipad && data != opad
      modifies sha, sha.buffer, data
      ensures Hashing(m + old(data[..len]))
    {
      hide XorPad, BlockKey, Hash, Low, High, Whole;
      sha.Update(data, len);
    }

    /** HMAC_SHA1_EndMessage: the code of the message; the key stays in place for the
        next one. */
    method EndMessage(ghost m: seq<byte>) returns (out: seq<byte>)
      requires Hashing(m)
      modifies sha, sha.buffer, opad
      ensures out == HmacSha1(keymat, m) && Keyed()
    {
      hide XorPad, BlockKey, Sha1, Hash, Low, High, Whole;
      var inner := sha.Final();
      StartOuter();
      var buf := new byte[20](i requires 0 <= i < 20 => inner[i]);
      assert buf[..20] == inner;
      sha.Update(buf, 20);
      out := sha.Final();
    }

    method StartOuter()
      requires Keyed()
      modifies sha, sha.buffer, opad
      ensures Keyed() && sha.Valid() && sha.msg == XorPad(BlockKey(keymat), OPAD)
    {
      hide XorPad, BlockKey, Hash, Low, High, Whole;
      sha.Init();
      assert opad[..64] == opad[..];
      sha.Update(opad, 64);
    }
  }

  ghost predicate Filled(s: seq<byte>, c: byte) {
    forall i | 0 <= i < |s| :: s[i] == c
  }

  lemma XorZero(c: byte)
    ensures Xor8(c, 0) == c
  {
  }

  lemma PadDone(pad: seq<byte>, k: seq<byte>, c: byte, n: nat)
    requires |pad| == |k| == 64 && n <= 64 && forall i | n <= i < 64 :: k[i] == 0
    requires forall i | 0 <= i < 64 :: pad[i] == if i < n then Xor8(c, k[i]) else c
    ensures pad == XorPad(k, c)
  {
    hide Xor8;
    XorZero(c);
    assert forall i | 0 <= i < 64 :: pad[i] == XorPad(k, c)[i];
  }

  method Memset(a: array<byte>, from: nat, n: nat, c: byte)
    requires from + n <= a.Length
    modifies a
    ensures forall i | 0 <= i < a.Length :: a[i] == if from <= i < from + n then c else old(a[i])
  {
    for i := 0 to n
      invariant forall k | 0 <= k < a.Length :: a[k] == if from <= k < from + i then c else old(a[k])
    {
      a[from + i] := c;
    }
  }

  method CopyBytes(to: array<byte>, at: nat, from: array<byte>, n: nat)
    requires at + n <= to.Length && n <= from.Length && to != from
    modifies to
    ensures to[..at + n] == old(to[..at]) + from[..n]
  {
    CopyTo(to, at, from[..n]);
  }
}
