/** The key schedules of crypt/des.c: what is done with subkey words, whatever the
    words are. */
module DesKeys {

  /** A round's two subkey words. */
  datatype SubkeyPair<T> = Pair(a: T, b: T)

  function Rev<T>(ks: seq<T>): (r: seq<T>)
    ensures |r| == |ks|
    ensures forall i | 0 <= i < |ks| :: r[i] == ks[|ks| - 1 - i]
  {
    if ks == [] then [] else Rev(ks[1..]) + [ks[0]]
  }

  function PairAt<T>(sk: seq<T>, i: nat): SubkeyPair<T>
    requires 2 * i + 1 < |sk|
  {
    Pair(sk[2 * i], sk[2 * i + 1])
  }

  /** Subkey words two by two. */
  function Pairs<T>(sk: seq<T>): (r: seq<SubkeyPair<T>>)
    ensures |r| == |sk| / 2
  {
    seq(|sk| / 2, i requires 0 <= i < |sk| / 2 => PairAt(sk, i))
  }

  /** The swaps of des_setkey_dec: the subkey pairs end up in reverse order. */
  method ReversePairs<T>(sk: array<T>)
    requires sk.Length == 32
    modifies sk
    ensures Pairs(sk[..]) == Rev(Pairs(old(sk[..])))
  {
    ghost var s := sk[..];
    var i := 0;
    ghost var k := 0;
    while i < 16
      invariant i == 2 * k && k <= 8
      invariant forall m: nat | m < 16 :: PairAt(sk[..], m) == PairAt(s, if m < k || m > 15 - k then 15 - m else m)
    {
      hide PairAt;
      SwapPairs(sk, i, k);
      i, k := i + 2, k + 1;
    }
    Reversed(sk[..], s);
  }

  /** SWAP, for both words of pairs `k` and `15 - k`. */
  method SwapPairs<T>(sk: array<T>, i: nat, ghost k: nat)
    requires sk.Length == 32 && i == 2 * k && k < 8
    modifies sk
    ensures forall m: nat | m < 16 ::
      PairAt(sk[..], m) == PairAt(old(sk[..]), if m == k || m == 15 - k then 15 - m else m)
  {
    var t := sk[i];
    sk[i] := sk[30 - i];
    sk[30 - i] := t;
    t := sk[i + 1];
    sk[i + 1] := sk[31 - i];
    sk[31 - i] := t;
  }

  lemma Reversed<T>(a: seq<T>, s: seq<T>)
    requires |a| == |s| == 32 && forall m: nat | m < 16 :: PairAt(a, m) == PairAt(s, 15 - m)
    ensures Pairs(a) == Rev(Pairs(s))
  {
    hide PairAt;
    var p, q := Pairs(a), Rev(Pairs(s));
    assert forall m | 0 <= m < 16 :: p[m] == q[m];
  }

  /** Copies one pair of words. */
  method CopyPair<T>(to: array<T>, i: nat, from: array<T>, j: nat)
    requires i + 1 < to.Length && j + 1 < from.Length && (to == from ==> i + 1 < j || j + 1 < i)
    modifies to
    ensures to[i] == old(from[j]) && to[i + 1] == old(from[j + 1])
    ensures forall m | 0 <= m < to.Length && m != i && m != i + 1 :: to[m] == old(to[m])
  {
    to[i] := from[j];
    to[i + 1] := from[j + 1];
  }

  /** What one round of the loop of des3_set2key does. */
  method Copy2<T>(esk: array<T>, dsk: array<T>, i: nat, ghost k: nat)
    requires esk != dsk && esk.Length == 96 && dsk.Length == 96 && i == 2 * k && k < 16
    modifies esk, dsk
    ensures forall m: nat | m < 48 ::
      PairAt(esk[..], m) == if m == k + 16 then PairAt(old(dsk[..]), 31 - k)
        else if m == k + 32 then PairAt(old(esk[..]), k) else PairAt(old(esk[..]), m)
    ensures forall m: nat | m < 48 ::
      PairAt(dsk[..], m) == if m == k || m == k + 32 then PairAt(old(esk[..]), 15 - k) else PairAt(old(dsk[..]), m)
  {
    CopyPair(dsk, i, esk, 30 - i);
    CopyPair(esk, i + 32, dsk, 62 - i);
    CopyPair(esk, i + 64, esk, i);
    CopyPair(dsk, i + 64, dsk, i);
  }

  /** des3_set2key, given the schedules of the two keys in place. */
  method Set2Key<T>(esk: array<T>, dsk: array<T>)
    requires esk != dsk && esk.Length == 96 && dsk.Length == 96
    modifies esk, dsk
    ensures var k1, k2 := Pairs(old(esk[..32])), Pairs(old(dsk[32..64]));
      Pairs(esk[..]) == k1 + Rev(k2) + k1 && Pairs(dsk[..]) == Rev(k1) + k2 + Rev(k1)
  {
    ghost var e, d := esk[..], dsk[..];
    var i := 0;
    ghost var k := 0;
    while i < 32
      invariant i == 2 * k && k <= 16
      invariant forall m: nat | m < 16 :: PairAt(esk[..], m) == PairAt(e, m)
      invariant forall m: nat | 16 <= m < 32 :: PairAt(dsk[..], m) == PairAt(d, m)
      invariant forall m: nat | m < k :: PairAt(dsk[..], m) == PairAt(e, 15 - m)
      invariant forall m: nat | 16 <= m < 16 + k :: PairAt(esk[..], m) == PairAt(d, 47 - m)
      invariant forall m: nat | 32 <= m < 32 + k :: PairAt(esk[..], m) == PairAt(e, m - 32)
      invariant forall m: nat | 32 <= m < 32 + k :: PairAt(dsk[..], m) == PairAt(e, 47 - m)
    {
      hide PairAt;
      Copy2(esk, dsk, i, k);
      i, k := i + 2, k + 1;
    }
    hide PairAt, Pairs, Rev;
    Slices(e);
    Slices(d);
    Three(esk[..], Pairs(e[..32]), Rev(Pairs(d[32..64])), Pairs(e[..32]));
    Three(dsk[..], Rev(Pairs(e[..32])), Pairs(d[32..64]), Rev(Pairs(e[..32])));
  }

  /** What one round of the loop of des3_set3key does. */
  method Copy3<T>(esk: array<T>, dsk: array<T>, i: nat, ghost k: nat)
    requires esk != dsk && esk.Length == 96 && dsk.Length == 96 && i == 2 * k && k < 16
    modifies esk, dsk
    ensures forall m: nat | m < 48 ::
      PairAt(esk[..], m) == if m == k + 16 then PairAt(old(dsk[..]), 31 - k) else PairAt(old(esk[..]), m)
    ensures forall m: nat | m < 48 ::
      PairAt(dsk[..], m) == if m == k then PairAt(old(esk[..]), 47 - k)
        else if m == k + 32 then PairAt(old(esk[..]), 15 - k) else PairAt(old(dsk[..]), m)
  {
    CopyPair(dsk, i, esk, 94 - i);
    CopyPair(esk, i + 32, dsk, 62 - i);
    CopyPair(dsk, i + 64, esk, 30 - i);
  }

  /** des3_set3key, given the schedules of the three keys in place. */
  method Set3Key<T>(esk: array<T>, dsk: array<T>)
    requires esk != dsk && esk.Length == 96 && dsk.Length == 96
    modifies esk, dsk
    ensures var k1, k2, k3 := Pairs(old(esk[..32])), Pairs(old(dsk[32..64])), Pairs(old(esk[64..]));
      Pairs(esk[..]) == k1 + Rev(k2) + k3 && Pairs(dsk[..]) == Rev(k3) + k2 + Rev(k1)
  {
    ghost var e, d := esk[..], dsk[..];
    var i := 0;
    ghost var k := 0;
    while i < 32
      invariant i == 2 * k && k <= 16
      invariant forall m: nat | m < 16 || 32 <= m < 48 :: PairAt(esk[..], m) == PairAt(e, m)
      invariant forall m: nat | 16 <= m < 32 :: PairAt(dsk[..], m) == PairAt(d, m)
      invariant forall m: nat | m < k :: PairAt(dsk[..], m) == PairAt(e, 47 - m)
      invariant forall m: nat | 16 <= m < 16 + k :: PairAt(esk[..], m) == PairAt(d, 47 - m)
      invariant forall m: nat | 32 <= m < 32 + k :: PairAt(dsk[..], m) == PairAt(e, 47 - m)
    {
      hide PairAt;
      Copy3(esk, dsk, i, k);
      i, k := i + 2, k + 1;
    }
    hide PairAt, Pairs, Rev;
    Slices(e);
    Slices(d);
    Three(esk[..], Pairs(e[..32]), Rev(Pairs(d[32..64])), Pairs(e[64..]));
    Three(dsk[..], Rev(Pairs(e[64..])), Pairs(d[32..64]), Rev(Pairs(e[..32])));
  }

  lemma Slices<T>(s: seq<T>)
    requires |s| == 96
    ensures |Pairs(s[..32])| == |Pairs(s[32..64])| == |Pairs(s[64..])| == 16
    ensures forall m: nat | m < 16 :: Pairs(s[..32])[m] == PairAt(s, m)
    ensures forall m: nat | m < 16 :: Pairs(s[32..64])[m] == PairAt(s, m + 16)
    ensures forall m: nat | m < 16 :: Pairs(s[64..])[m] == PairAt(s, m + 32)
  {
  }

  /** Three schedules of 16 pairs in a row. */
  lemma Three<T>(s: seq<T>, a: seq<SubkeyPair<T>>, b: seq<SubkeyPair<T>>, c: seq<SubkeyPair<T>>)
    requires |s| == 96 && |a| == |b| == |c| == 16
    requires forall m: nat | m < 16 :: PairAt(s, m) == a[m]
    requires forall m: nat | 16 <= m < 32 :: PairAt(s, m) == b[m - 16]
    requires forall m: nat | 32 <= m < 48 :: PairAt(s, m) == c[m - 32]
    ensures Pairs(s) == a + b + c
  {
    hide PairAt;
    var p, q := Pairs(s), a + b + c;
    assert forall m: nat | m < 48 :: p[m] == PairAt(s, m) == q[m];
  }

  /** Each decryption schedule is the encryption schedule reversed. */
  lemma SchedulesReverse<T>(k1: seq<T>, k2: seq<T>, k3: seq<T>)
    requires |k1| == |k2| == |k3| == 16
    ensures Rev(k1 + Rev(k2) + k3) == Rev(k3) + k2 + Rev(k1)
  {
    var p, q := Rev(k1 + Rev(k2) + k3), Rev(k3) + k2 + Rev(k1);
    hide Rev;
    forall i: nat | i < 48
      ensures p[i] == q[i]
    {
    }
  }
}
