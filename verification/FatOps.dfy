/** The FAT16 read operations of src/fs/fat/fat16.c over the driver's two shared
    streams. */
module FatOps {
  import opened Memory
  import opened Streamer
  import opened Fat16

  /** Every table entry a walk looks up lies at a position an int can hold. */
  ghost predicate WalkDefined(v: Volume, cluster: nat, n: nat) {
    forall i :: 0 <= i < n && Walk(v, cluster, i).Cluster? ==>
      0 <= FatPosition(v, Walk(v, cluster, i).number)
  }

  /** Every position a read looks up can be held by an int. */
  ghost predicate ReadDefined(v: Volume, cluster: nat, offset: nat, total: nat)
    decreases total
  {
    var size := ClusterSize(v);
    var reached := Walk(v, cluster, ChunkOf(v, offset));
    && offset + total <= INT_MAX
    && WalkDefined(v, cluster, ChunkOf(v, offset))
    && (reached.Cluster? ==>
          var start := ClusterPosition(v, reached.number) + Within(v, offset);
          var n := if total > size then size else total;
          && 0 <= start && start + n <= INT_MAX
          && (total > n ==> ReadDefined(v, cluster, offset + n, total - n)))
  }

  function Least(a: nat, b: nat): (r: nat)
    ensures r <= a && r <= b && (r == a || r == b)
  {
    if a > b then b else a
  }

  /** One step of a read whose walk reaches cluster `here`. */
  lemma ReadStep(v: Volume, cluster: nat, offset: nat, total: nat, here: nat, n: nat)
    requires ReadDefined(v, cluster, offset, total)
    requires Walk(v, cluster, ChunkOf(v, offset)) == Cluster(here) && n == Least(total, ClusterSize(v))
    ensures var start := ClusterPosition(v, here) + Within(v, offset);
      && 0 <= start && start + n <= INT_MAX
      && ReadBytes(v, cluster, offset, total)
         == (if total == n then Outcome(true, Slice(v.disk, start, n))
             else Outcome(ReadBytes(v, cluster, offset + n, total - n).ok,
                          Slice(v.disk, start, n) + ReadBytes(v, cluster, offset + n, total - n).bytes))
    ensures total > n ==> ReadDefined(v, cluster, offset + n, total - n)
  {
    hide ClusterPosition, Slice, ClusterSize, ChunkOf, Within, Walk, WalkDefined;
  }

  lemma ReadNoStep(v: Volume, cluster: nat, offset: nat, total: nat)
    requires ReadDefined(v, cluster, offset, total)
    ensures WalkDefined(v, cluster, ChunkOf(v, offset))
    ensures Walk(v, cluster, ChunkOf(v, offset)).NoCluster? ==>
      ReadBytes(v, cluster, offset, total) == Outcome(false, [])
  {
    hide ClusterPosition, Slice, ClusterSize, ChunkOf, Within, Walk, WalkDefined;
  }

  lemma ScaledProduct(a: nat, b: nat)
    ensures a * SECTOR_SIZE * (b * ENTRY_SIZE) % 1024 == 0
  {
    assert a * SECTOR_SIZE * (b * ENTRY_SIZE) == 1024 * (a * b);
  }

  lemma FatPositionAligned(v: Volume, cluster: nat)
    ensures FatPosition(v, cluster) % 1024 == 0
  {
    var product := v.reserved * SECTOR_SIZE * (cluster * ENTRY_SIZE);
    ScaledProduct(v.reserved, cluster);
  }

  lemma EntryOf(v: Volume, cluster: nat, buf: seq<byte>)
    requires buf == Slice(v.disk, FatPosition(v, cluster), ENTRY_SIZE)
    ensures Half(buf[0], buf[1]) == FatEntry(v, cluster)
  {
  }

  /** A little-endian uint16_t. */
  function Half(low: int, high: int): int {
    low + 256 * high
  }

  lemma SpliceAll(m: seq<byte>, s: seq<byte>)
    requires |m| == |s|
    ensures Splice(m, 0, s) == s
  {
  }

  class FatPrivate {
    const volume: Volume
    const fatStream: DiskStream
    const clusterStream: DiskStream

    constructor (volume: Volume)
      ensures this.volume == volume && Valid()
      ensures fresh(fatStream) && fresh(clusterStream)
    {
      this.volume := volume;
      fatStream := new DiskStream(volume.disk, true);
      clusterStream := new DiskStream(volume.disk, true);
    }

    ghost predicate Valid() {
      && fatStream != clusterStream
      && fatStream.disk == volume.disk && fatStream.registered
      && clusterStream.disk == volume.disk && clusterStream.registered
    }

    method GetFatEntry(cluster: nat) returns (res: nat)
      requires Valid() && 0 <= FatPosition(volume, cluster)
      modifies fatStream
      ensures res == FatEntry(volume, cluster)
    {
      hide ByteAt, FatPosition, FatEntry, Splice, Slice;
      FatPositionAligned(volume, cluster);
      FatPositionFits(cluster);
      fatStream.Seek(FatPosition(volume, cluster));
      var buf := new byte[ENTRY_SIZE];
      ghost var empty := buf[..];
      var _ := fatStream.Read(buf, 0, ENTRY_SIZE);
      SpliceAll(empty, Slice(volume.disk, FatPosition(volume, cluster), ENTRY_SIZE));
      EntryOf(volume, cluster, buf[..]);
      res := Half(buf[0], buf[1]);
    }

    lemma FatPositionFits(cluster: nat)
      ensures FatPosition(volume, cluster) + ENTRY_SIZE <= INT_MAX
    {
      FatPositionAligned(volume, cluster);
    }

    method GetClusterForOffset(startingCluster: nat, offset: nat) returns (res: int)
      requires Valid() && WalkDefined(volume, startingCluster, ChunkOf(volume, offset))
      modifies fatStream
      ensures res == (match Walk(volume, startingCluster, ChunkOf(volume, offset))
                      case NoCluster => -EIO
                      case Cluster(c) => c)
    {
      hide FatPosition, FatEntry, ClusterSize, ChunkOf, IsMarker;
      var clustersAhead := ChunkOf(volume, offset);
      var clusterToUse := startingCluster;
      for i := 0 to clustersAhead
        invariant Walk(volume, startingCluster, i) == Cluster(clusterToUse)
      {
        var entry := GetFatEntry(clusterToUse);
        WalkStep(volume, startingCluster, i);
        if IsMarker(entry) {
          BrokenWalk(volume, startingCluster, i + 1, clustersAhead);
          return -EIO;
        }
        clusterToUse := entry;
      }
      return clusterToUse;
    }

    method ReadInternal(cluster: nat, offset: nat, total: nat, out: array<byte>, at: nat)
      returns (res: int)
      requires Valid() && ReadDefined(volume, cluster, offset, total)
      requires at + total <= out.Length
      modifies fatStream, clusterStream, out
      ensures var read := ReadBytes(volume, cluster, offset, total);
        && res == (if read.ok then 0 else -EIO)
        && at + |read.bytes| <= out.Length
        && out[..] == Splice(old(out[..]), at, read.bytes)
      decreases total
    {
      hide Walk, ClusterSize, ChunkOf, Within, ClusterPosition, Slice, Splice, WalkDefined,
           ReadBytes, ReadDefined, Least;
      ReadNoStep(volume, cluster, offset, total);
      ghost var before := out[..];
      var size := ClusterSize(volume);
      var clusterToUse := GetClusterForOffset(cluster, offset);
      if clusterToUse < 0 {
        SpliceNothing(before, at);
        return clusterToUse;
      }
      var n := Least(total, size);
      ReadStep(volume, cluster, offset, total, clusterToUse, n);
      var start := ClusterPosition(volume, clusterToUse) + Within(volume, offset);
      clusterStream.Seek(start);
      var _ := clusterStream.Read(out, at, n);
      res := 0;
      if total - n > 0 {
        ghost var rest := ReadBytes(volume, cluster, offset + n, total - n);
        ReadExactLength(volume, cluster, offset + n, total - n);
        res := ReadInternal(cluster, offset + n, total - n, out, at + n);
        SpliceTwice(before, at, Slice(volume.disk, start, n), rest.bytes);
      }
    }

    /** fat16_read: `nmemb` items of `size` bytes from the descriptor's position on. */
    method Read(firstCluster: nat, pos: nat, size: nat, nmemb: nat, out: array<byte>)
      returns (res: int)
      requires Valid() && nmemb * size <= out.Length
      requires forall i :: 0 <= i < nmemb ==> ReadDefined(volume, firstCluster, ItemAt(pos, size, i), size)
      modifies fatStream, clusterStream, out
      ensures var read := ReadItems(volume, firstCluster, pos, size, nmemb);
        && res == (if read.ok then nmemb else -EIO)
        && |read.bytes| <= out.Length
        && out[..] == Splice(old(out[..]), 0, read.bytes)
    {
      hide ReadBytes, Splice, ReadDefined, ReadItems;
      ghost var before := out[..];
      var offset, at := pos, 0;
      SpliceNothing(before, 0);
      ItemsNone(volume, firstCluster, pos, size);
      for i := 0 to nmemb
        invariant at == i * size && offset == ItemAt(pos, size, i)
        invariant ReadItems(volume, firstCluster, pos, size, i).ok
        invariant |ReadItems(volume, firstCluster, pos, size, i).bytes| == at
        invariant at <= out.Length
        invariant out[..] == Splice(before, 0, ReadItems(volume, firstCluster, pos, size, i).bytes)
      {
        RoomForItem(i, nmemb, size);
        ReadExactLength(volume, firstCluster, offset, size);
        ItemsNext(volume, firstCluster, pos, size, i);
        var r := ReadInternal(firstCluster, offset, size, out, at);
        SpliceTwice(before, 0, ReadItems(volume, firstCluster, pos, size, i).bytes,
                    ReadBytes(volume, firstCluster, offset, size).bytes);
        if r < 0 {
          ItemsBroken(volume, firstCluster, pos, size, i + 1, nmemb);
          return r;
        }
        at, offset := at + size, offset + size;
      }
      return nmemb;
    }
  }

  lemma Distributes(a: nat, b: nat, c: nat)
    ensures (a + b) * c == a * c + b * c && b * c >= 0
  {
  }

  lemma RoomForItem(i: nat, n: nat, size: nat)
    requires i < n
    ensures i * size + size <= n * size
    ensures i * size + size == (i + 1) * size
  {
    var d := n - i - 1;
    assert (i + 1 + d) * size == (i + 1) * size + d * size by { Distributes(i + 1, d, size); }
    Distributes(i, 1, size);
  }

  lemma ItemsNone(v: Volume, cluster: nat, offset: nat, size: nat)
    ensures ReadItems(v, cluster, offset, size, 0) == Outcome(true, [])
  {
  }

  lemma ItemsNext(v: Volume, cluster: nat, offset: nat, size: nat, i: nat)
    requires ReadItems(v, cluster, offset, size, i).ok
    ensures var last := ReadBytes(v, cluster, ItemAt(offset, size, i), size);
      ReadItems(v, cluster, offset, size, i + 1)
      == Outcome(last.ok, ReadItems(v, cluster, offset, size, i).bytes + last.bytes)
  {
    hide ReadBytes;
  }

  lemma {:induction false} ItemsBroken(v: Volume, cluster: nat, offset: nat, size: nat, i: nat, n: nat)
    requires i <= n && !ReadItems(v, cluster, offset, size, i).ok
    ensures ReadItems(v, cluster, offset, size, n) == ReadItems(v, cluster, offset, size, i)
    decreases n - i
  {
    hide ReadBytes;
    if i < n { ItemsBroken(v, cluster, offset, size, i, n - 1); }
  }

  lemma WalkStep(v: Volume, cluster: nat, i: nat)
    requires Walk(v, cluster, i).Cluster?
    ensures var entry := FatEntry(v, Walk(v, cluster, i).number);
      Walk(v, cluster, i + 1) == if IsMarker(entry) then NoCluster else Cluster(entry)
  {
    hide FatEntry, IsMarker;
    WalkOn(v, cluster, i, 1);
    var here := Walk(v, cluster, i).number;
    assert Walk(v, FatEntry(v, here), 0) == Cluster(FatEntry(v, here));
  }

  lemma BrokenWalk(v: Volume, cluster: nat, i: nat, n: nat)
    requires i <= n && Walk(v, cluster, i).NoCluster?
    ensures Walk(v, cluster, n).NoCluster?
  {
    WalkOn(v, cluster, i, n - i);
  }

  lemma ReadExactLength(v: Volume, cluster: nat, offset: nat, total: nat)
    ensures var r := ReadBytes(v, cluster, offset, total);
      |r.bytes| <= total && (r.ok ==> |r.bytes| == total)
  {
    hide Delivered;
    ReadExact(v, cluster, offset, total);
  }
}
