/** src/disk/streamer.c: byte-addressed reads over a disk of 512-byte sectors. */
module Streamer {
  import opened Memory

  const SECTOR_SIZE := 512
  const INT_MAX := 0x7fff_ffff

  type Sector = s: seq<byte> | |s| == SECTOR_SIZE ghost witness seq(SECTOR_SIZE, i => 0)

  /** What disk_read_block delivers for each sector number. */
  type Disk = int -> Sector

  function ByteAt(d: Disk, pos: int): byte {
    d(pos / SECTOR_SIZE)[pos % SECTOR_SIZE]
  }

  /** The disk bytes [pos, pos + n). */
  function Slice(d: Disk, pos: int, n: nat): (s: seq<byte>)
    ensures |s| == n && forall i :: 0 <= i < n ==> s[i] == ByteAt(d, pos + i)
  {
    seq<byte>(n, i requires 0 <= i < n => ByteAt(d, pos + i))
  }

  lemma SliceSplit(d: Disk, pos: int, n: nat, k: nat)
    requires k <= n
    ensures Slice(d, pos, n) == Slice(d, pos, k) + Slice(d, pos + k, n - k)
  {
  }

  lemma SpliceTwice(m: seq<byte>, a: nat, s: seq<byte>, t: seq<byte>)
    requires a + |s| + |t| <= |m|
    ensures Splice(Splice(m, a, s), a + |s|, t) == Splice(m, a, s + t)
  {
    assert |Splice(Splice(m, a, s), a + |s|, t)| == |Splice(m, a, s + t)|;
  }

  lemma SpliceNothing(m: seq<byte>, a: nat)
    requires a <= |m|
    ensures Splice(m, a, []) == m
  {
  }

  /** Consecutive positions inside one sector. */
  lemma SameSector(pos: int, i: nat)
    requires pos % SECTOR_SIZE + i < SECTOR_SIZE
    ensures (pos + i) / SECTOR_SIZE == pos / SECTOR_SIZE
    ensures (pos + i) % SECTOR_SIZE == pos % SECTOR_SIZE + i
  {
  }

  /** Bytes of one sector from `pos` on. */
  lemma WithinSector(d: Disk, pos: int, n: nat)
    requires pos % SECTOR_SIZE + n <= SECTOR_SIZE
    ensures Slice(d, pos, n) == d(pos / SECTOR_SIZE)[pos % SECTOR_SIZE..pos % SECTOR_SIZE + n]
  {
    forall i | 0 <= i < n
      ensures Slice(d, pos, n)[i] == d(pos / SECTOR_SIZE)[pos % SECTOR_SIZE + i]
    {
      SameSector(pos, i);
    }
  }

  lemma ReadOn(m: seq<byte>, at: nat, d: Disk, pos: int, n: nat, total: nat)
    requires n <= total && at + total <= |m|
    ensures Splice(Splice(m, at, Slice(d, pos, n)), at + n, Slice(d, pos + n, total - n))
         == Splice(m, at, Slice(d, pos, total))
  {
    hide Splice;
    SliceSplit(d, pos, total, n);
    SpliceTwice(m, at, Slice(d, pos, n), Slice(d, pos + n, total - n));
  }

  /** The copy loop of diskstreamer_read: `n` bytes of `buf` from `offset` on. */
  method CopyOut(buf: Sector, offset: nat, out: array<byte>, at: nat, n: nat)
    requires offset + n <= SECTOR_SIZE && at + n <= out.Length
    modifies out
    ensures out[..] == Splice(old(out[..]), at, buf[offset..offset + n])
  {
    for i := 0 to n
      invariant forall k :: 0 <= k < at || at + i <= k < out.Length ==> out[k] == old(out[k])
      invariant forall k :: at <= k < at + i ==> out[k] == buf[offset + k - at]
    {
      out[at + i] := buf[offset + i];
    }
  }

  const EIO := 1

  class DiskStream {
    const disk: Disk
    /** The disk is the one the kernel has found; disk_read_block refuses any other. */
    const registered: bool
    var pos: int

    constructor (disk: Disk, registered: bool)
      ensures this.disk == disk && this.registered == registered && pos == 0
    {
      this.disk, this.registered := disk, registered;
      pos := 0;
    }

    method Seek(pos: int)
      modifies this
      ensures this.pos == pos
    {
      this.pos := pos;
    }

    /**
     * diskstreamer_read: `total` bytes into `out` from index `at` on. A read that
     * reaches a sector's end goes on in a recursive call, possibly for 0 bytes.
     */
    method Read(out: array<byte>, at: nat, total: nat) returns (res: int)
      requires 0 <= pos && pos + total <= INT_MAX
      requires at + total <= out.Length
      modifies this, out
      ensures res == if registered then 0 else -EIO
      ensures registered ==>
        pos == old(pos) + total && out[..] == Splice(old(out[..]), at, Slice(disk, old(pos), total))
      ensures !registered ==> pos == old(pos) && out[..] == old(out[..])
      decreases total
    {
      hide Slice, Splice, ByteAt;
      ghost var before := out[..];
      ghost var start := pos;
      var sector, offset := pos / SECTOR_SIZE, pos % SECTOR_SIZE;
      var overflow := offset + total >= SECTOR_SIZE;
      var n := total;
      if overflow {
        n := n - (offset + n - SECTOR_SIZE);
      }
      if !registered {
        return -EIO;
      }
      var buf := disk(sector);
      res := 0;
      WithinSector(disk, start, n);
      CopyOut(buf, offset, out, at, n);
      pos := pos + n;
      if overflow {
        res := Read(out, at + n, total - n);
        ReadOn(before, at, disk, start, n, total);
      }
    }
  }
}
