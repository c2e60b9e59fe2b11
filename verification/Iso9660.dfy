/** iso9660/iso9660.c: reads of a file through a 16-sector cache give exactly the
    disc's bytes. */
module Iso9660 {
  import opened Memory
  import opened BigEndian

  const SECTOR: nat := 0x800
  const BUFFER: nat := 0x8000

  /** The bytes of the disc from `pos` on. */
  function Slice(disc: nat -> byte, pos: nat, n: nat): (r: seq<byte>)
    ensures |r| == n && forall i | 0 <= i < n :: r[i] == disc(pos + i)
  {
    seq(n, i requires 0 <= i => disc(pos + i))
  }

  lemma SlicePart(disc: nat -> byte, pos: nat, n: nat, from: nat, k: nat)
    requires from + k <= n
    ensures Slice(disc, pos, n)[from..from + k] == Slice(disc, pos + from, k)
  {
  }

  lemma SliceJoin(disc: nat -> byte, pos: nat, a: nat, b: nat)
    ensures Slice(disc, pos, a) + Slice(disc, pos + a, b) == Slice(disc, pos, a + b)
  {
    var s, t := Slice(disc, pos, a) + Slice(disc, pos + a, b), Slice(disc, pos, a + b);
    forall i | 0 <= i < a + b
      ensures s[i] == t[i]
    {
      assert i >= a ==> pos + i == pos + a + (i - a);
    }
  }

  /** How a request to the drive ends; a failed one may leave anything behind. */
  datatype Outcome = Good | Bad(junk: seq<byte>)

  /** `a` with `w` written at `at`. */
  ghost predicate Wrote(a: seq<byte>, b: seq<byte>, at: nat, w: seq<byte>) {
    at + |w| <= |a| && b == a[..at] + w + a[at + |w|..]
  }

  lemma WroteAgain(a: seq<byte>, b: seq<byte>, c: seq<byte>, at: nat, v: seq<byte>, w: seq<byte>)
    requires Wrote(a, b, at, v) && Wrote(b, c, at + |v|, w)
    ensures Wrote(a, c, at, v + w)
  {
    assert b[..at + |v|] == a[..at] + v;
    assert b[at + |v| + |w|..] == a[at + |v| + |w|..];
  }

  /** `a` with `n` bytes of the disc written at `at`. */
  ghost predicate Delivered(disc: nat -> byte, pos: nat, n: nat, a: seq<byte>, b: seq<byte>, at: nat) {
    Wrote(a, b, at, Slice(disc, pos, n))
  }

  lemma NothingYet(disc: nat -> byte, pos: nat, a: seq<byte>)
    ensures Delivered(disc, pos, 0, a, a, 0)
  {
  }

  lemma DeliveredMore(disc: nat -> byte, pos: nat, n: nat, k: nat, a: seq<byte>, b: seq<byte>, c: seq<byte>)
    requires Delivered(disc, pos, n, a, b, 0) && Delivered(disc, pos + n, k, b, c, n)
    ensures Delivered(disc, pos, n + k, a, c, 0)
  {
    hide Slice, Wrote;
    WroteAgain(a, b, c, 0, Slice(disc, pos, n), Slice(disc, pos + n, k));
    SliceJoin(disc, pos, n, k);
  }

  method Copy(to: array<byte>, at: nat, from: array<byte>, off: nat, n: nat)
    requires at + n <= to.Length && off + n <= from.Length && to != from
    modifies to
    ensures Wrote(old(to[..]), to[..], at, from[off..off + n])
  {
    CopyTo(to, at, from[off..off + n]);
    assert old(to[..])[..at] == old(to[..at]) && old(to[..])[at + n..] == old(to[at + n..]);
  }

  function Min(a: nat, b: nat): nat {
    if a <= b then a else b
  }

  /** The cache window of every sector touched has 32-bit sector numbers. */
  predicate Fits(offset: nat, len: nat) {
    (offset + len) / SECTOR + 17 < TWO32
  }

  /** One of the first `used` drive reads failed. */
  ghost predicate Failed(d: seq<Outcome>, used: nat)
    requires used <= |d|
  {
    exists i | 0 <= i < used :: d[i].Bad?
  }

  /** The first `used` outcomes were good and `rest` is what is left. */
  ghost predicate Worked(d: seq<Outcome>, rest: seq<Outcome>, used: nat) {
    used <= |d| && rest == d[used..] && forall i | 0 <= i < used :: d[i].Good?
  }

  lemma WorkedNone(d: seq<Outcome>)
    ensures Worked(d, d, 0)
  {
  }

  lemma WorkedAll(d: seq<Outcome>, rest: seq<Outcome>, used: nat)
    requires Worked(d, rest, used)
    ensures used <= |d| && rest == d[used..] && !Failed(d, used)
  {
  }

  lemma WorkedOn(d: seq<Outcome>, a: seq<Outcome>, b: seq<Outcome>, used: nat) returns (n: nat)
    requires Worked(d, a, used) && (b == a || (a != [] && b == a[1..]))
    ensures n <= |d| && b == d[n..]
    ensures if |b| < |a| && a[0].Bad? then Failed(d, n) else Worked(d, b, n)
  {
    n := |d| - |b|;
    if n > used {
      assert a[0] == d[n - 1];
    }
  }

  class Mount {
    const disc: nat -> byte
    const buffer: array<byte>
    var start: nat
    var sectors: nat
    /** What the drive will do next; it works once this has run out. */
    var drive: seq<Outcome>

    /** A cache that is not empty holds what the disc holds. */
    ghost predicate Valid()
      reads this, buffer
    {
      && buffer.Length == BUFFER
      && (sectors != 0 ==> sectors == 16 && start + 16 < TWO32 && buffer[..] == Slice(disc, start * SECTOR, BUFFER))
    }

    constructor (bytes: nat -> byte, outcomes: seq<Outcome>)
      ensures Valid() && disc == bytes && fresh(buffer) && drive == outcomes
    {
      disc, drive := bytes, outcomes;
      buffer := new byte[BUFFER](_ => 0);
      start, sectors := 0, 0;
    }

    /** The drive: 16 sectors from `sector` on, or failure. */
    method ReadSectors(sector: nat) returns (ok: bool)
      requires buffer.Length == BUFFER
      modifies this`drive, buffer
      ensures ok <==> old(drive) == [] || old(drive)[0].Good?
      ensures ok ==> buffer[..] == Slice(disc, sector * SECTOR, BUFFER)
      ensures drive == if old(drive) == [] then [] else old(drive)[1..]
    {
      ok := drive == [] || drive[0].Good?;
      var junk := if ok then [] else drive[0].junk;
      drive := if drive == [] then [] else drive[1..];
      for i := 0 to BUFFER
        invariant forall k | 0 <= k < i :: ok ==> buffer[k] == disc(sector * SECTOR + k)
        modifies buffer
      {
        buffer[i] := if ok then disc(sector * SECTOR + i) else if i < |junk| then junk[i] else buffer[i];
      }
    }

    /** __read: part of the request, from the cache if it has all of it. */
    method ReadSome(ptr: array<byte>, at: nat, offset: nat, len: nat) returns (ret: int)
      requires Valid() && 0 < len && at + len <= ptr.Length && ptr != buffer && Fits(offset, len)
      modifies this, buffer, ptr
      ensures Valid() && ret != 0 && ret <= len
      ensures ret > 0 ==> Delivered(disc, offset, ret, old(ptr[..]), ptr[..], at)
      ensures ret < 0 ==> ret == -1 && ptr[..] == old(ptr[..]) && sectors == 0
      ensures drive == old(drive) || (old(drive) != [] && drive == old(drive)[1..])
      ensures ret < 0 <==> |drive| < |old(drive)| && old(drive)[0].Bad?
    {
      hide Slice, Min, Wrote, Fits;
      Geometry(offset, len);
      var sector, end := offset / SECTOR, (offset + len - 1) / SECTOR;
      var n := Min(BUFFER / SECTOR, end - sector + 1);
      var into := offset % SECTOR;
      var part := Min(BUFFER - into, len);
      if sectors != 0 && sector >= start && sector + n <= start + sectors {
        var from := (sector - start) * SECTOR + into;
        CacheHit(disc, start, offset, len, buffer[..]);
        Copy(ptr, at, buffer, from, part);
        return part;
      }
      var ok := ReadSectors(sector);
      if !ok {
        sectors := 0;
        return -1;
      }
      start, sectors := sector, BUFFER / SECTOR;
      CacheHit(disc, start, offset, len, buffer[..]);
      Copy(ptr, at, buffer, into, part);
      ret := part;
    }

    /** _read: the whole request or failure. */
    method ReadAll(ptr: array<byte>, offset: nat, len: nat) returns (ret: int, ghost used: nat)
      requires Valid() && len <= ptr.Length && len < 0x8000_0000 && ptr != buffer && Fits(offset, len)
      modifies this, buffer, ptr
      ensures Valid() && (ret == len || ret == -1)
      ensures ret == len ==> Delivered(disc, offset, len, old(ptr[..]), ptr[..], 0)
      ensures used <= |old(drive)| && drive == old(drive)[used..]
      ensures ret == -1 <==> Failed(old(drive), used)
      ensures ret == -1 ==> sectors == 0
    {
      hide Delivered, Fits, Worked, Failed;
      ghost var s, d := ptr[..], drive;
      var read := 0;
      used := 0;
      WorkedNone(d);
      NothingYet(disc, offset, s);
      while read < len
        invariant 0 <= read <= len && Valid() && Delivered(disc, offset, read, s, ptr[..], 0)
        invariant Worked(d, drive, used)
      {
        ghost var b, o := ptr[..], drive;
        FitsPart(offset, len, read, len - read);
        var got := ReadSome(ptr, read, offset + read, len - read);
        used := WorkedOn(d, o, drive, used);
        if got > 0 {
          DeliveredMore(disc, offset, read, got, s, b, ptr[..]);
          read := read + got;
        } else {
          return -1, used;
        }
      }
      ret := read;
      WorkedAll(d, drive, used);
    }
  }

  // ----- Open files

  datatype Errno = NoError | EBADF | EOVERFLOW | EINVAL | EIO

  datatype Whence = SeekSet | SeekCur | SeekEnd | SeekOther

  const TWO63: int := 0x8000_0000_0000_0000
  type off_t = x: int | -0x8000_0000_0000_0000 <= x < 0x8000_0000_0000_0000

  /** A sum as a 64-bit off_t. */
  function Wrap63(x: int): off_t {
    (x + TWO63) % (2 * TWO63) - TWO63
  }

  class File {
    const mount: Mount
    const sector: nat
    const size: nat
    var offset: nat
    var inUse: bool

    /** The file lies on the disc, and its position inside the file. */
    ghost predicate Valid()
      reads this, mount, mount.buffer
    {
      mount.Valid() && offset <= size < TWO32 && Fits(sector * SECTOR, size)
    }

    constructor (m: Mount, at: nat, n: nat)
      requires m.Valid() && n < TWO32 && Fits(at * SECTOR, n)
      ensures Valid() && mount == m && sector == at && size == n && offset == 0 && inUse
    {
      mount, sector, size, offset, inUse := m, at, n, 0, true;
    }

    /** _ISO9660_read_r: the file's bytes from the position on, clipped at its end; the
        position moves by what was read and stays put on failure. */
    method Read(ptr: array<byte>, len: nat) returns (ret: int, errno: Errno, ghost used: nat)
      requires Valid() && len <= ptr.Length && Min(len, size - offset) < 0x8000_0000 && ptr != mount.buffer
      modifies this`offset, mount, mount.buffer, ptr
      ensures Valid()
      ensures !inUse ==> ret == -1 && errno == EBADF && offset == old(offset) && ptr[..] == old(ptr[..])
      ensures inUse && ret >= 0 ==> ret == Min(len, size - old(offset)) && offset == old(offset) + ret
      ensures inUse && ret >= 0 ==> Delivered(mount.disc, 2048 * sector + old(offset), ret, old(ptr[..]), ptr[..], 0)
      ensures inUse && ret < 0 ==> ret == -1 && errno == EIO && offset == old(offset) && mount.sectors == 0
      ensures used <= |old(mount.drive)| && mount.drive == old(mount.drive)[used..]
      ensures inUse ==> (ret < 0 <==> Failed(old(mount.drive), used))
    {
      hide Delivered, Fits;
      used := 0;
      WorkedNone(mount.drive);
      WorkedAll(mount.drive, mount.drive, 0);
      if !inUse {
        return -1, EBADF, used;
      }
      NothingYet(mount.disc, sector * SECTOR + offset, ptr[..]);
      errno := NoError;
      if offset >= size {
        return 0, EOVERFLOW, used;
      }
      var n := len;
      if len + offset > size {
        errno, n := EOVERFLOW, size - offset;
      }
      if n == 0 {
        return 0, errno, used;
      }
      FitsPart(sector * SECTOR, size, offset, n);
      ret, used := mount.ReadAll(ptr, sector * SECTOR + offset, n);
      if ret < 0 {
        return -1, EIO, used;
      }
      offset := offset + ret;
    }

    /** _ISO9660_seek_r: any position inside the file, its end included. */
    method Seek(pos: off_t, dir: Whence) returns (ret: int, errno: Errno)
      requires Valid()
      modifies this`offset
      ensures Valid()
      ensures var target := if dir.SeekSet? then pos else if dir.SeekCur? then old(offset) + pos else size + pos;
        if inUse && !dir.SeekOther? && 0 <= target <= size then ret == offset == target && errno == NoError
        else
          && ret == -1 && offset == old(offset)
          && errno == if !inUse then EBADF
                      else if !dir.SeekOther? && target >= TWO63 then EOVERFLOW
                      else EINVAL
    {
      if !inUse {
        return -1, EBADF;
      }
      var position := 0;
      match dir {
        case SeekSet => position := pos;
        case SeekCur => position := Wrap63(offset + pos);
        case SeekEnd => position := Wrap63(size + pos);
        case SeekOther => return -1, EINVAL;
      }
      if pos > 0 && position < 0 {
        return -1, EOVERFLOW;
      }
      if position < 0 || position > size {
        return -1, EINVAL;
      }
      offset := position;
      return position, NoError;
    }
  }

  lemma FitsPart(offset: nat, len: nat, from: nat, n: nat)
    requires from + n <= len && Fits(offset, len)
    ensures Fits(offset + from, n)
  {
  }

  lemma Geometry(offset: nat, len: nat)
    requires len > 0 && Fits(offset, len)
    ensures var sector, end, into := offset / SECTOR, (offset + len - 1) / SECTOR, offset % SECTOR;
      && sector <= end && sector + 16 < TWO32 && into < SECTOR && 0 < Min(BUFFER - into, len) <= len
      && sector + Min(16, end - sector + 1) <= sector + 16 && sector * SECTOR + into == offset
  {
  }

  /** What a request needs lies inside the sectors it was found to span. */
  lemma CacheHit(disc: nat -> byte, start: nat, offset: nat, len: nat, buf: seq<byte>)
    requires len > 0 && |buf| == BUFFER && buf == Slice(disc, start * SECTOR, BUFFER)
    requires start <= offset / SECTOR
    requires offset / SECTOR + Min(16, (offset + len - 1) / SECTOR - offset / SECTOR + 1) <= start + 16
    ensures var from, part := (offset / SECTOR - start) * SECTOR + offset % SECTOR, Min(BUFFER - offset % SECTOR, len);
      from + part <= BUFFER && buf[from..from + part] == Slice(disc, offset, part)
  {
    hide Slice;
    var from, part := (offset / SECTOR - start) * SECTOR + offset % SECTOR, Min(BUFFER - offset % SECTOR, len);
    assert start * SECTOR + from == offset;
    SlicePart(disc, start * SECTOR, BUFFER, from, part);
  }
}
