/** What the modules share about the machine: 32-bit words and copying into an array. */
module Memory {

  const TWO32: int := 0x1_0000_0000
  type u32 = x: int | 0 <= x < 0x1_0000_0000

  /** memcpy of `s` to `to + at`. */
  method CopyTo<T>(to: array<T>, at: nat, s: seq<T>)
    requires at + |s| <= to.Length
    modifies to
    ensures to[..] == old(to[..at]) + s + old(to[at + |s|..])
  {
    ghost var o := to[..];
    for i := 0 to |s|
      invariant forall k | 0 <= k < to.Length :: to[k] == if at <= k < at + i then s[k - at] else o[k]
    {
      to[at + i] := s[i];
    }
    assert o[..at] == old(to[..at]) && o[at + |s|..] == old(to[at + |s|..]);
  }
}
