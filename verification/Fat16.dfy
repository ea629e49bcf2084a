/** The FAT16 read path of src/fs/fat/fat16.c: the cluster walk, the read that
    re-walks it for every cluster, and the file it is meant to deliver. */
module Fat16 {
  import Bits
  import opened Memory
  import opened Streamer

  const ENTRY_SIZE := 2

  type Positive = n: int | n >= 1 witness 1

  /** What the driver knows about a volume: the disk, the boot sector's
      reserved_sectors and sectors_per_cluster, and the root directory's end. */
  datatype Volume = Volume(disk: Disk, reserved: nat, perCluster: Positive, dataSector: nat)

  function ClusterSize(v: Volume): (n: Positive) {
    v.perCluster * SECTOR_SIZE
  }

  /** The cluster of a file in which byte `k` lies, counted from 0, and where. */
  function ChunkOf(v: Volume, k: nat): nat {
    k / ClusterSize(v)
  }

  function Within(v: Volume, k: nat): (r: nat)
    ensures r < ClusterSize(v)
  {
    k % ClusterSize(v)
  }

  // ---- The file allocation table and the cluster walk ----

  /** Where fat16_get_fat_entry seeks: the table's position times the entry's
      offset, as an unsigned product passed on as an int. */
  function FatPosition(v: Volume, cluster: nat): int {
    Signed(v.reserved * SECTOR_SIZE * (cluster * ENTRY_SIZE))
  }

  /** Where the FAT16 format puts the entry. */
  function FormatPosition(v: Volume, cluster: nat): nat {
    v.reserved * SECTOR_SIZE + cluster * ENTRY_SIZE
  }

  function FatEntry(v: Volume, cluster: nat): (e: nat)
    ensures e < 0x1_0000
  {
    var at := FatPosition(v, cluster);
    var low: int := ByteAt(v.disk, at);
    var high: int := ByteAt(v.disk, at + 1);
    low + 256 * high
  }

  /** The entry is the little-endian value of the two bytes at its position. */
  lemma EntryIsLittleEndian(v: Volume, cluster: nat)
    ensures FatEntry(v, cluster) == LittleEndian(Slice(v.disk, FatPosition(v, cluster), 2))
  {
    var s := Slice(v.disk, FatPosition(v, cluster), 2);
    assert s[1..] == [s[1]] && s[1..][1..] == [];
    assert LittleEndian(s[1..]) == s[1] + 256 * LittleEndian(s[1..][1..]);
  }

  /** The position is the product of the table's position and the entry's offset,
      read as a signed 32-bit number: below 2 GB the product itself. */
  lemma EntryPosition(v: Volume, cluster: nat)
    ensures var p, product := FatPosition(v, cluster), 1024 * (v.reserved * cluster);
      && -0x8000_0000 <= p < 0x8000_0000 && (p - product) % 0x1_0000_0000 == 0
      && (product < 0x8000_0000 ==> p == product)
      && (product < 0x8000_0000 ==> (p == 512 * v.reserved + 2 * cluster <==> v.reserved == 0 && cluster == 0))
  {
    ProductOf(v.reserved, cluster);
    var product := 1024 * (v.reserved * cluster);
    assert FatPosition(v, cluster) == Signed(product);
    OnlyAtZero(v.reserved, cluster);
  }

  lemma ProductOf(a: nat, b: nat)
    ensures a * SECTOR_SIZE * (b * ENTRY_SIZE) == 1024 * (a * b) && a * b >= 0
  {
  }

  lemma OnlyAtZero(a: nat, b: nat)
    ensures 1024 * (a * b) == 512 * a + 2 * b <==> a == 0 && b == 0
  {
    if a == 0 {
      assert a * b == 0;
    } else if b == 0 {
      assert a * b == 0;
    } else {
      Bits.MulAtLeast(a, b);
      Bits.MulAtLeast(b, a);
    }
  }

  /** The end, bad, reserved and free markers that end a walk. */
  predicate IsMarker(entry: nat) {
    entry in {0xFF8, 0xFFF, 0xFF7, 0xFF0, 0xFF6, 0x00}
  }

  datatype Reached = Cluster(number: nat) | NoCluster

  /** The cluster `n` steps after `cluster`. */
  function Walk(v: Volume, cluster: nat, n: nat): Reached
    decreases n
  {
    if n == 0 then Cluster(cluster)
    else
      var entry := FatEntry(v, cluster);
      if IsMarker(entry) then NoCluster else Walk(v, entry, n - 1)
  }

  lemma {:induction false} WalkOn(v: Volume, cluster: nat, n: nat, k: nat)
    ensures Walk(v, cluster, n + k)
         == if Walk(v, cluster, n).NoCluster? then NoCluster
            else Walk(v, Walk(v, cluster, n).number, k)
    decreases n
  {
    if n > 0 {
      var entry := FatEntry(v, cluster);
      if !IsMarker(entry) { WalkOn(v, entry, n - 1, k); }
    }
  }

  /** The markers of the FAT16 format: free, or reserved, bad and end from 0xFFF0 on. */
  predicate FormatMarker(entry: nat) {
    entry == 0 || 0xFFF0 <= entry < 0x1_0000
  }

  /** Markers of the format do not end a walk: it goes on at that number, for the code
      compares with 12-bit markers, which the format allots to ordinary clusters. A
      step ends where the format ends it exactly if the entry is free, or is neither
      kind of marker. */
  lemma WalkEndsRightIff(v: Volume, cluster: nat)
    ensures var entry := FatEntry(v, cluster);
      && (entry >= 0xFFF0 ==> forall n: nat :: Walk(v, cluster, n + 1) == Walk(v, entry, n))
      && ((Walk(v, cluster, 1).NoCluster? <==> FormatMarker(entry)) <==>
            entry == 0 || (entry < 0xFFF0 && entry !in {0xFF0, 0xFF6, 0xFF7, 0xFF8, 0xFFF}))
  {
    hide FatEntry;
    var entry := FatEntry(v, cluster);
    assert Walk(v, cluster, 1) == if IsMarker(entry) then NoCluster else Walk(v, entry, 0);
    forall n: nat | entry >= 0xFFF0 ensures Walk(v, cluster, n + 1) == Walk(v, entry, n) {
      assert !IsMarker(entry);
    }
  }

  lemma WalkPrefix(v: Volume, cluster: nat, n: nat, m: nat)
    requires m <= n && Walk(v, cluster, n).Cluster?
    ensures Walk(v, cluster, m).Cluster?
  {
    WalkOn(v, cluster, m, n - m);
  }

  /** No FAT entry of a volume laid out like the boot sector's (200 reserved
      sectors) is read from where the format puts it. */
  lemma BootVolumeEntriesMisplaced(v: Volume, cluster: nat)
    requires v.reserved == 200 && cluster < 0x1_0000
    ensures FatPosition(v, cluster) != FormatPosition(v, cluster)
  {
    var product := 204800 * cluster;
    assert v.reserved * SECTOR_SIZE * (cluster * ENTRY_SIZE) == product;
    var k := product / RAM_SIZE;
    assert 0 <= k <= 3;
  }

  // ---- The file: its clusters one after the other ----

  function ClusterPosition(v: Volume, cluster: nat): int {
    (v.dataSector + (cluster - 2) * v.perCluster) * SECTOR_SIZE
  }

  /** Cluster 2 starts where the root directory ends, and each cluster where the one
      before it ends. */
  lemma ClustersFollow(v: Volume, cluster: nat)
    ensures ClusterPosition(v, 2) == v.dataSector * 512
    ensures ClusterPosition(v, cluster + 1) == ClusterPosition(v, cluster) + v.perCluster * 512
  {
    ClusterSector(v, cluster);
  }

  lemma ClusterSector(v: Volume, cluster: nat)
    ensures ClusterPosition(v, cluster) == (v.dataSector + (cluster - 2) * v.perCluster) * 512
    ensures ClusterPosition(v, cluster + 1) == ClusterPosition(v, cluster) + v.perCluster * 512
  {
    assert (cluster + 1 - 2) * v.perCluster == (cluster - 2) * v.perCluster + v.perCluster;
  }

  /** The contents of the first `n` clusters of the chain. */
  function FileBytes(v: Volume, cluster: nat, n: nat): (s: seq<byte>)
    requires n > 0 ==> Walk(v, cluster, n - 1).Cluster?
    ensures |s| == n * ClusterSize(v)
    decreases n
  {
    if n == 0 then []
    else
      (if n >= 2 then WalkPrefix(v, cluster, n - 1, n - 2); FileBytes(v, cluster, n - 1) else [])
      + Slice(v.disk, ClusterPosition(v, Walk(v, cluster, n - 1).number), ClusterSize(v))
  }

  /** The disk position of byte `k` of the file. */
  function FilePosition(v: Volume, cluster: nat, k: nat): int
    requires Walk(v, cluster, ChunkOf(v, k)).Cluster?
  {
    ClusterPosition(v, Walk(v, cluster, ChunkOf(v, k)).number) + Within(v, k)
  }

  lemma ChunkIs(v: Volume, k: nat, q: nat)
    requires q * ClusterSize(v) <= k < q * ClusterSize(v) + ClusterSize(v)
    ensures ChunkOf(v, k) == q && Within(v, k) == k - q * ClusterSize(v)
  {
    Bits.DivUnique(k, ClusterSize(v), q, k - q * ClusterSize(v));
  }

  lemma FirstChunk(v: Volume, k: nat)
    requires k < ClusterSize(v)
    ensures ChunkOf(v, k) == 0 && Within(v, k) == k
  {
    ChunkIs(v, k, 0);
  }

  lemma ChunkBelow(v: Volume, k: nat, n: nat)
    requires k < n * ClusterSize(v)
    ensures ChunkOf(v, k) < n
  {
    if ChunkOf(v, k) >= n { Bits.MulMonotone(ClusterSize(v), n, ChunkOf(v, k)); }
  }

  lemma ChunkAfter(v: Volume, k: nat)
    ensures ChunkOf(v, k + ClusterSize(v)) == ChunkOf(v, k) + 1
    ensures Within(v, k + ClusterSize(v)) == Within(v, k)
  {
    var size, q, r := ClusterSize(v), ChunkOf(v, k), Within(v, k);
    assert k + size == size * (q + 1) + r;
    Bits.DivUnique(k + size, size, q + 1, r);
  }

  lemma OneLess(n: nat, size: nat)
    ensures (n - 1) * size == n * size - size
  {
  }

  lemma FileBytesLast(v: Volume, cluster: nat, n: nat)
    requires n > 0 && Walk(v, cluster, n - 1).Cluster?
    ensures n > 1 ==> Walk(v, cluster, n - 2).Cluster?
    ensures FileBytes(v, cluster, n)
         == (if n == 1 then [] else FileBytes(v, cluster, n - 1))
            + Slice(v.disk, ClusterPosition(v, Walk(v, cluster, n - 1).number), ClusterSize(v))
  {
    hide ByteAt, ClusterPosition, ClusterSize, Walk, Slice;
    if n > 1 { WalkPrefix(v, cluster, n - 1, n - 2); }
  }

  lemma {:induction false} FileByteAt(v: Volume, cluster: nat, n: nat, k: nat)
    requires n > 0 ==> Walk(v, cluster, n - 1).Cluster?
    requires k < n * ClusterSize(v)
    ensures ChunkOf(v, k) < n && Walk(v, cluster, ChunkOf(v, k)).Cluster?
    ensures FileBytes(v, cluster, n)[k] == ByteAt(v.disk, FilePosition(v, cluster, k))
    decreases n
  {
    hide ByteAt, ClusterPosition, ClusterSize, ChunkOf, Within, Walk, FileBytes;
    var size := ClusterSize(v);
    ChunkBelow(v, k, n);
    WalkPrefix(v, cluster, n - 1, ChunkOf(v, k));
    OneLess(n, size);
    FileBytesLast(v, cluster, n);
    if k < (n - 1) * size {
      FileByteAt(v, cluster, n - 1, k);
    } else {
      ChunkIs(v, k, n - 1);
    }
  }

  /** The number of byte `j` of sector `s` of cluster `q`, with `per` sectors a cluster. */
  function ByteNumber(per: Positive, q: nat, s: nat, j: nat): (k: nat) {
    Bits.MulNonNegative(per, q);
    512 * (per * q + s) + j
  }

  /** Byte j of sector s of the q-th cluster of a file is byte j of that sector of the
      disk, clusters being numbered from 2 on at the root directory's end. */
  lemma FileByteSector(v: Volume, cluster: nat, n: nat, q: nat, s: nat, j: nat)
    requires q < n && s < v.perCluster && j < 512 && Walk(v, cluster, n - 1).Cluster?
    ensures |FileBytes(v, cluster, n)| == ByteNumber(v.perCluster, n, 0, 0)
    ensures Walk(v, cluster, q).Cluster? && ByteNumber(v.perCluster, q, s, j) < |FileBytes(v, cluster, n)|
    ensures FileBytes(v, cluster, n)[ByteNumber(v.perCluster, q, s, j)]
         == v.disk(v.dataSector + (Walk(v, cluster, q).number - 2) * v.perCluster + s)[j]
  {
    hide FileBytes, Walk, FilePosition, ChunkOf, Within, ByteNumber;
    WalkPrefix(v, cluster, n - 1, q);
    SectorInFile(v, n, q, s, j);
    FileByteAt(v, cluster, n, ByteNumber(v.perCluster, q, s, j));
    SectorPosition(v, cluster, q, s, j);
  }

  lemma SectorInFile(v: Volume, n: nat, q: nat, s: nat, j: nat)
    requires q < n && s < v.perCluster && j < 512
    ensures n * ClusterSize(v) == ByteNumber(v.perCluster, n, 0, 0)
    ensures var k := ByteNumber(v.perCluster, q, s, j);
      ChunkOf(v, k) == q && Within(v, k) == 512 * s + j && k < n * ClusterSize(v)
  {
    var k := ByteNumber(v.perCluster, q, s, j);
    ChainSize(v, n);
    ChainSize(v, q);
    ByteInChain(v.perCluster, n, q, s, j);
    hide ByteNumber, ClusterSize, ChunkOf, Within;
    ChunkIs(v, k, q) by { ClusterBytes(v); }
  }

  lemma ClusterBytes(v: Volume)
    ensures ClusterSize(v) == 512 * v.perCluster
  {
  }

  lemma ChainSize(v: Volume, n: nat)
    ensures n * ClusterSize(v) == ByteNumber(v.perCluster, n, 0, 0)
  {
  }

  lemma ByteInChain(per: Positive, n: nat, q: nat, s: nat, j: nat)
    requires q < n && s < per && j < 512
    ensures ByteNumber(per, q, s, j) == ByteNumber(per, q, 0, 0) + 512 * s + j < ByteNumber(per, n, 0, 0)
  {
    Bits.MulMonotone(per, q + 1, n);
  }

  lemma SectorPosition(v: Volume, cluster: nat, q: nat, s: nat, j: nat)
    requires s < v.perCluster && j < 512 && Walk(v, cluster, q).Cluster?
    requires ChunkOf(v, ByteNumber(v.perCluster, q, s, j)) == q
    requires Within(v, ByteNumber(v.perCluster, q, s, j)) == 512 * s + j
    ensures ByteAt(v.disk, FilePosition(v, cluster, ByteNumber(v.perCluster, q, s, j)))
         == v.disk(v.dataSector + (Walk(v, cluster, q).number - 2) * v.perCluster + s)[j]
  {
    hide Walk, ChunkOf, Within, ByteNumber;
    var here := Walk(v, cluster, q).number;
    ClusterSector(v, here);
    hide ClusterPosition;
    var first := v.dataSector + (here - 2) * v.perCluster;
    assert FilePosition(v, cluster, ByteNumber(v.perCluster, q, s, j)) == (first + s) * 512 + j;
  }

  /** The first cluster of a file that starts in cluster 2 is the disk from the end of
      the root directory on. */
  lemma FirstFileBytes(v: Volume)
    ensures FileBytes(v, 2, 1) == Slice(v.disk, v.dataSector * 512, v.perCluster * 512)
  {
    ClustersFollow(v, 2);
    assert FileBytes(v, 2, 0) == [];
  }

  // ---- fat16_read_internal_from_stream ----

  /** The result of a read: success, and the bytes delivered to the caller's
      buffer, which a failed read has delivered in part. */
  datatype Outcome = Outcome(ok: bool, bytes: seq<byte>)

  /** One cluster's worth at a time, from the offset into the cluster on, each
      step walking the chain from its start. */
  function ReadBytes(v: Volume, cluster: nat, offset: nat, total: nat): Outcome
    decreases total
  {
    var size := ClusterSize(v);
    match Walk(v, cluster, ChunkOf(v, offset))
    case NoCluster => Outcome(false, [])
    case Cluster(here) =>
      var n := if total > size then size else total;
      var got := Slice(v.disk, ClusterPosition(v, here) + Within(v, offset), n);
      if total - n > 0 then
        var rest := ReadBytes(v, cluster, offset + n, total - n);
        Outcome(rest.ok, got + rest.bytes)
      else Outcome(true, got)
  }

  /** The step of the walk from which byte `k` of a read is taken. */
  function StepOf(v: Volume, offset: nat, k: nat): nat {
    ChunkOf(v, offset) + ChunkOf(v, k)
  }

  /** The disk position from which byte `k` of a read is taken. */
  function ReadPosition(v: Volume, cluster: nat, offset: nat, k: nat): int
    requires Walk(v, cluster, StepOf(v, offset, k)).Cluster?
  {
    ClusterPosition(v, Walk(v, cluster, StepOf(v, offset, k)).number)
    + Within(v, offset) + Within(v, k)
  }

  /** Byte `k` of what was delivered comes from ReadPosition(k). */
  ghost predicate Delivered(v: Volume, cluster: nat, offset: nat, bytes: seq<byte>) {
    forall k :: 0 <= k < |bytes| ==>
      Walk(v, cluster, StepOf(v, offset, k)).Cluster? &&
      bytes[k] == ByteAt(v.disk, ReadPosition(v, cluster, offset, k))
  }

  lemma DeliveredOnce(v: Volume, cluster: nat, offset: nat, n: nat)
    requires n <= ClusterSize(v)
    requires Walk(v, cluster, ChunkOf(v, offset)).Cluster?
    ensures var here := Walk(v, cluster, ChunkOf(v, offset)).number;
      Delivered(v, cluster, offset,
                Slice(v.disk, ClusterPosition(v, here) + Within(v, offset), n))
  {
    hide ByteAt, ClusterPosition, Walk, ClusterSize, ChunkOf, Within;
    forall k | 0 <= k < n
      ensures Within(v, k) == k && StepOf(v, offset, k) == ChunkOf(v, offset)
    {
      FirstChunk(v, k);
    }
  }

  lemma DeliveredMore(v: Volume, cluster: nat, offset: nat, got: seq<byte>, rest: seq<byte>)
    requires |got| == ClusterSize(v)
    requires Delivered(v, cluster, offset, got)
    requires Delivered(v, cluster, offset + ClusterSize(v), rest)
    ensures Delivered(v, cluster, offset, got + rest)
  {
    hide ByteAt, ClusterPosition, Walk, ClusterSize, ChunkOf, Within;
    var size := ClusterSize(v);
    ChunkAfter(v, offset);
    forall k | 0 <= k < |got + rest|
      ensures Walk(v, cluster, StepOf(v, offset, k)).Cluster?
      ensures (got + rest)[k] == ByteAt(v.disk, ReadPosition(v, cluster, offset, k))
    {
      if k >= size {
        ChunkAfter(v, k - size);
        assert StepOf(v, offset, k) == StepOf(v, offset + size, k - size);
        assert (got + rest)[k] == rest[k - size];
      }
    }
  }

  /** The number of the last chunk of a read. */
  function LastChunk(v: Volume, total: nat): nat {
    if total == 0 then 0 else ChunkOf(v, total - 1)
  }

  lemma NextChunk(v: Volume, total: nat)
    requires total > ClusterSize(v)
    ensures LastChunk(v, total) == LastChunk(v, total - ClusterSize(v)) + 1
  {
    ChunkAfter(v, total - ClusterSize(v) - 1);
  }

  lemma OneChunk(v: Volume, total: nat)
    requires total <= ClusterSize(v)
    ensures LastChunk(v, total) == 0
  {
    if total > 0 { FirstChunk(v, total - 1); }
  }

  /** A read succeeds exactly if the walk reaches its last chunk, and every byte
      delivered, also by a read that fails, comes from ReadPosition. */
  lemma {:induction false} ReadExact(v: Volume, cluster: nat, offset: nat, total: nat)
    ensures var r := ReadBytes(v, cluster, offset, total);
      && r.ok == Walk(v, cluster, ChunkOf(v, offset) + LastChunk(v, total)).Cluster?
      && (if r.ok then |r.bytes| == total
          else |r.bytes| == 0 || |r.bytes| < total)
      && Delivered(v, cluster, offset, r.bytes)
    decreases total
  {
    hide ByteAt, ClusterPosition, ClusterSize, Delivered, LastChunk, ChunkOf, Within, Walk;
    var size := ClusterSize(v);
    var first := ChunkOf(v, offset);
    if total > size { NextChunk(v, total); } else { OneChunk(v, total); }
    if Walk(v, cluster, first).NoCluster? {
      if Walk(v, cluster, first + LastChunk(v, total)).Cluster? {
        WalkPrefix(v, cluster, first + LastChunk(v, total), first);
      }
      DeliveredNothing(v, cluster, offset);
    } else {
      var n := if total > size then size else total;
      DeliveredOnce(v, cluster, offset, n);
      if total > size {
        ReadExact(v, cluster, offset + size, total - size);
        ChunkAfter(v, offset);
        var here := Walk(v, cluster, first).number;
        var got := Slice(v.disk, ClusterPosition(v, here) + Within(v, offset), size);
        var rest := ReadBytes(v, cluster, offset + size, total - size);
        DeliveredMore(v, cluster, offset, got, rest.bytes);
      }
    }
  }

  lemma DeliveredNothing(v: Volume, cluster: nat, offset: nat)
    ensures Delivered(v, cluster, offset, [])
  {
  }

  // ---- The read against the file ----

  /** Byte `k` lies past the end of the cluster in which its chunk starts. */
  predicate Straddles(v: Volume, offset: nat, k: nat) {
    Within(v, offset) + Within(v, k) >= ClusterSize(v)
  }

  lemma {:induction false} WhereByteLies(v: Volume, offset: nat, k: nat)
    ensures if Straddles(v, offset, k) then
        ChunkOf(v, offset + k) == StepOf(v, offset, k) + 1 &&
        Within(v, offset + k) == Within(v, offset) + Within(v, k) - ClusterSize(v)
      else
        ChunkOf(v, offset + k) == StepOf(v, offset, k) &&
        Within(v, offset + k) == Within(v, offset) + Within(v, k)
  {
    var size := ClusterSize(v);
    var q, q' := ChunkOf(v, offset), ChunkOf(v, k);
    var r := Within(v, offset) + Within(v, k);
    assert offset + k == size * (q + q') + r;
    if r >= size {
      assert size * (q + q' + 1) == size * (q + q') + size;
      Bits.DivUnique(offset + k, size, q + q' + 1, r - size);
    } else {
      Bits.DivUnique(offset + k, size, q + q', r);
    }
  }

  lemma ClustersApart(v: Volume, c: nat, c': nat)
    ensures ClusterPosition(v, c') == ClusterPosition(v, c) + ClusterSize(v) <==> c' == c + 1
  {
    var d := c' - c - 1;
    assert ClusterPosition(v, c') - ClusterPosition(v, c) - ClusterSize(v) == ClusterSize(v) * d;
    if d > 0 { Bits.MulAtLeast(ClusterSize(v), d); }
    if d < 0 {
      Bits.MulAtLeast(ClusterSize(v), -d);
      assert ClusterSize(v) * d == -(ClusterSize(v) * -d);
    }
  }

  /** After the given step the chain goes on in the next cluster of the disk. */
  predicate GoesOnNextDoor(v: Volume, cluster: nat, step: nat) {
    Walk(v, cluster, step).Cluster? &&
    Walk(v, cluster, step + 1) == Cluster(Walk(v, cluster, step).number + 1)
  }

  /** A byte is taken from the file's own position exactly if it lies within the
      cluster where its chunk starts, or the chain goes on in the next cluster
      of the disk. */
  lemma SourceRightIff(v: Volume, cluster: nat, offset: nat, k: nat)
    requires Walk(v, cluster, StepOf(v, offset, k)).Cluster?
    requires Walk(v, cluster, ChunkOf(v, offset + k)).Cluster?
    ensures ReadPosition(v, cluster, offset, k) == FilePosition(v, cluster, offset + k)
       <==> (Straddles(v, offset, k) ==> GoesOnNextDoor(v, cluster, StepOf(v, offset, k)))
  {
    hide ClusterPosition, ClusterSize, Walk, ChunkOf, Within;
    WhereByteLies(v, offset, k);
    if Straddles(v, offset, k) {
      ClustersApart(v, Walk(v, cluster, StepOf(v, offset, k)).number,
                    Walk(v, cluster, StepOf(v, offset, k) + 1).number);
    }
  }

  /** Wherever a read leaves the cluster of its chunk, the chain is contiguous. */
  ghost predicate ContiguousWhereItStraddles(v: Volume, cluster: nat, offset: nat, total: nat) {
    forall k :: 0 <= k < total && Straddles(v, offset, k) ==>
      GoesOnNextDoor(v, cluster, StepOf(v, offset, k))
  }

  /** A read inside the file's first `n` clusters succeeds, and delivers the
      file's bytes [offset, offset + total) if the chain is contiguous wherever
      the read straddles. */
  lemma ReadIsSlice(v: Volume, cluster: nat, offset: nat, total: nat, n: nat)
    requires n > 0 && Walk(v, cluster, n - 1).Cluster?
    requires 0 < total && offset + total <= n * ClusterSize(v)
    requires ContiguousWhereItStraddles(v, cluster, offset, total)
    ensures ReadBytes(v, cluster, offset, total)
         == Outcome(true, FileBytes(v, cluster, n)[offset..offset + total])
  {
    hide ReadBytes, FileBytes, ByteAt, ClusterSize, Walk, FilePosition, ReadPosition, ChunkOf, Within;
    ReadExact(v, cluster, offset, total);
    ReadWithinSucceeds(v, cluster, offset, total, n);
    var bytes := ReadBytes(v, cluster, offset, total).bytes;
    var file := FileBytes(v, cluster, n);
    forall k | 0 <= k < total
      ensures bytes[k] == file[offset + k]
    {
      FileByteAt(v, cluster, n, offset + k);
      SourceRightIff(v, cluster, offset, k);
    }
    assert bytes == file[offset..offset + total];
  }

  lemma ReadWithinSucceeds(v: Volume, cluster: nat, offset: nat, total: nat, n: nat)
    requires n > 0 && Walk(v, cluster, n - 1).Cluster?
    requires 0 < total && offset + total <= n * ClusterSize(v)
    ensures ReadBytes(v, cluster, offset, total).ok
  {
    hide ReadBytes, ClusterSize, Walk, Delivered, ChunkOf, Within;
    ReadExact(v, cluster, offset, total);
    WhereByteLies(v, offset, total - 1);
    ChunkBelow(v, offset + total - 1, n);
    WalkPrefix(v, cluster, n - 1, StepOf(v, offset, total - 1));
  }

  /** Reads from a cluster's start, and reads inside one cluster, never straddle. */
  lemma AlignedNeverStraddles(v: Volume, cluster: nat, offset: nat, total: nat)
    requires Within(v, offset) == 0 || Within(v, offset) + total <= ClusterSize(v)
    ensures ContiguousWhereItStraddles(v, cluster, offset, total)
  {
    hide Walk, ClusterSize, ChunkOf, Within;
    forall k | 0 <= k < total
      ensures !Straddles(v, offset, k)
    {
      if Within(v, offset) != 0 { FirstChunk(v, k); }
    }
  }

  /** A volume with three reserved sectors and two sectors a cluster, on which byte j
      of sector s is s + j. */
  function SampleVolume(): Volume {
    Volume((s: int) => SampleSector(s), 3, 2, 10)
  }

  function SampleSector(s: int): Sector {
    seq<byte>(SECTOR_SIZE, j => (s + j) % 256)
  }

  lemma LastStep(v: Volume, offset: nat, total: Positive)
    ensures StepOf(v, offset, total - 1) == ChunkOf(v, offset) + LastChunk(v, total)
  {
    hide ChunkOf;
  }

  /** A read reports success although the file ends before its last byte exactly
      if that byte straddles and the chain breaks at that very step. */
  lemma SucceedsPastTheEndIff(v: Volume, cluster: nat, offset: nat, total: Positive)
    ensures ReadBytes(v, cluster, offset, total).ok &&
            Walk(v, cluster, ChunkOf(v, offset + total - 1)).NoCluster?
       <==> Straddles(v, offset, total - 1) &&
            Walk(v, cluster, StepOf(v, offset, total - 1)).Cluster? &&
            Walk(v, cluster, StepOf(v, offset, total - 1) + 1).NoCluster?
  {
    hide ReadBytes, ClusterSize, Walk, Delivered, StepOf, LastChunk, Straddles, ChunkOf, Within;
    LastStep(v, offset, total);
    ReadExact(v, cluster, offset, total);
    WhereByteLies(v, offset, total - 1);
    assert offset + (total - 1) == offset + total - 1;
  }

  lemma SampleChain()
    ensures FatEntry(SampleVolume(), 2) == 0x0d0c
    ensures Walk(SampleVolume(), 2, 1) == Cluster(0x0d0c)
  {
    var v := SampleVolume();
    assert FatPosition(v, 2) == 12 * SECTOR_SIZE;
    assert FatEntry(v, 2) == 0x0d0c;
    assert Walk(v, 0x0d0c, 0) == Cluster(0x0d0c);
  }

  /** A mid-cluster read that crosses a break in the chain delivers a byte of the
      wrong cluster: after cluster 2 the file goes on in cluster 0x0d0c, the read
      in cluster 3. */
  lemma MidClusterReadWrong()
    ensures var v := SampleVolume();
      && Walk(v, 2, 1) == Cluster(0x0d0c)
      && ReadBytes(v, 2, 1, 1024).ok && |ReadBytes(v, 2, 1, 1024).bytes| == 1024
      && FileBytes(v, 2, 2)[1023] == 10 && ReadBytes(v, 2, 1, 1024).bytes[1022] == 10
      && FileBytes(v, 2, 2)[1024] == 30 && ReadBytes(v, 2, 1, 1024).bytes[1023] == 12
  {
    hide FileBytes, ReadBytes, SampleVolume, Walk;
    SampleFile();
    SampleRead();
  }

  lemma SampleFile()
    ensures Walk(SampleVolume(), 2, 1) == Cluster(0x0d0c)
    ensures FileBytes(SampleVolume(), 2, 2)[1023] == 10 && FileBytes(SampleVolume(), 2, 2)[1024] == 30
  {
    hide FileBytes, FatEntry, IsMarker, ChunkOf, Within;
    var v := SampleVolume();
    SampleChain();
    assert Walk(v, 2, 0) == Cluster(2);
    FirstChunk(v, 1023);
    ChunkIs(v, 1024, 1);
    FileByteAt(v, 2, 2, 1023);
    FileByteAt(v, 2, 2, 1024);
  }

  lemma SampleRead()
    ensures var r := ReadBytes(SampleVolume(), 2, 1, 1024);
      r.ok && |r.bytes| == 1024 && r.bytes[1022] == 10 && r.bytes[1023] == 12
  {
    hide ReadBytes, FatEntry, IsMarker, ChunkOf, Within;
    var v := SampleVolume();
    assert Walk(v, 2, 0) == Cluster(2);
    FirstChunk(v, 1);
    FirstChunk(v, 1022);
    FirstChunk(v, 1023);
    ReadExact(v, 2, 1, 1024);
  }

  // ---- fat16_read ----

  /** Where item `i` starts. */
  function ItemAt(offset: nat, size: nat, i: nat): nat {
    offset + i * size
  }

  lemma NextItem(offset: nat, size: nat, i: nat)
    ensures ItemAt(offset, size, i + 1) == ItemAt(offset, size, i) + size
  {
  }

  /** `count` reads of `size` bytes one after the other, up to the first that fails. */
  function ReadItems(v: Volume, cluster: nat, offset: nat, size: nat, count: nat): Outcome
    decreases count
  {
    if count == 0 then Outcome(true, [])
    else
      var before := ReadItems(v, cluster, offset, size, count - 1);
      if !before.ok then before
      else
        var last := ReadBytes(v, cluster, ItemAt(offset, size, count - 1), size);
        Outcome(last.ok, before.bytes + last.bytes)
  }

  /** Each of the first `n` items is read in full, and its bytes stand in its place. */
  ghost predicate ItemsRead(v: Volume, cluster: nat, offset: nat, size: nat, n: nat, bytes: seq<byte>) {
    forall i :: 0 <= i < n ==>
      ReadBytes(v, cluster, ItemAt(offset, size, i), size).ok &&
      PartIs(bytes, ItemAt(0, size, i), ReadBytes(v, cluster, ItemAt(offset, size, i), size).bytes)
  }

  predicate PartIs(bytes: seq<byte>, at: nat, part: seq<byte>) {
    at + |part| <= |bytes| && bytes[at..at + |part|] == part
  }

  lemma PartStays(bytes: seq<byte>, at: nat, part: seq<byte>, more: seq<byte>)
    requires PartIs(bytes, at, part)
    ensures PartIs(bytes + more, at, part)
  {
  }

  lemma PartAdded(bytes: seq<byte>, part: seq<byte>)
    ensures PartIs(bytes + part, |bytes|, part)
  {
  }

  /** The items come one after the other, up to the first that cannot be read: of that
      one, what could be. */
  lemma {:induction false} ItemsExact(v: Volume, cluster: nat, offset: nat, size: nat, count: nat)
    returns (n: nat)
    ensures n <= count
    ensures var r := ReadItems(v, cluster, offset, size, count);
      && ItemsRead(v, cluster, offset, size, n, r.bytes) && (r.ok <==> n == count)
      && (r.ok ==> |r.bytes| == ItemAt(0, size, count))
      && (!r.ok ==>
            var last := ReadBytes(v, cluster, ItemAt(offset, size, n), size);
            && !last.ok && |r.bytes| == ItemAt(0, size, n) + |last.bytes|
            && PartIs(r.bytes, ItemAt(0, size, n), last.bytes))
    decreases count
  {
    hide ReadBytes, ItemAt, PartIs;
    n := count;
    if count == 0 {
      assert ItemAt(0, size, 0) == 0 by { FirstItem(size); }
    } else {
      n := ItemsExact(v, cluster, offset, size, count - 1);
      var before := ReadItems(v, cluster, offset, size, count - 1);
      if before.ok {
        var last := ReadBytes(v, cluster, ItemAt(offset, size, count - 1), size);
        forall i | 0 <= i < n
          ensures PartIs(before.bytes + last.bytes, ItemAt(0, size, i),
                         ReadBytes(v, cluster, ItemAt(offset, size, i), size).bytes)
        {
          PartStays(before.bytes, ItemAt(0, size, i), ReadBytes(v, cluster, ItemAt(offset, size, i), size).bytes,
                    last.bytes);
        }
        PartAdded(before.bytes, last.bytes);
        if last.ok {
          FullRead(v, cluster, ItemAt(offset, size, count - 1), size);
          NextItem(0, size, count - 1);
          n := count;
        }
      }
    }
  }

  lemma FirstItem(size: nat)
    ensures ItemAt(0, size, 0) == 0
  {
  }

  lemma FullRead(v: Volume, cluster: nat, offset: nat, total: nat)
    requires ReadBytes(v, cluster, offset, total).ok
    ensures |ReadBytes(v, cluster, offset, total).bytes| == total
  {
    hide ReadBytes;
    ReadExact(v, cluster, offset, total);
  }

  /** Items that fill whole clusters from a cluster's start, or that divide the
      cluster size from a multiple of the item size on, never straddle. */
  predicate ItemsFitClusters(v: Volume, offset: nat, size: Positive) {
    (size % ClusterSize(v) == 0 && offset % ClusterSize(v) == 0) ||
    (ClusterSize(v) % size == 0 && offset % size == 0)
  }

  lemma MultipleOf(x: nat, d: Positive)
    requires x % d == 0
    ensures x == d * (x / d)
  {
  }

  lemma ItemWithinCluster(v: Volume, offset: nat, size: Positive, i: nat)
    requires ItemsFitClusters(v, offset, size)
    ensures var at := ItemAt(offset, size, i);
      Within(v, at) == 0 || Within(v, at) + size <= ClusterSize(v)
  {
    var c := ClusterSize(v);
    var at := offset + i * size;
    if size % c == 0 && offset % c == 0 {
      var q := offset / c + i * (size / c);
      assert at == c * q by {
        MultipleOf(offset, c);
        MultipleOf(size, c);
        assert i * size == i * (c * (size / c)) == c * (i * (size / c));
        assert c * q == c * (offset / c) + c * (i * (size / c));
      }
      Bits.DivUnique(at, c, q, 0);
    } else {
      SmallItem(c, offset, size, i);
    }
  }

  lemma SmallItem(c: Positive, offset: nat, size: Positive, i: nat)
    requires c % size == 0 && offset % size == 0
    ensures (offset + i * size) % c + size <= c
  {
    var at := offset + i * size;
    var per := c / size;
    var q := at / c;
    var r := at % c;
    var n := offset / size + i - per * q;
    MultipleOf(offset, size);
    MultipleOf(c, size);
    assert r == size * n by {
      assert at == size * (offset / size + i);
      assert at == c * q + r;
      assert c * q == size * per * q == size * (per * q);
      assert size * n == size * (offset / size + i) - size * (per * q);
    }
    if n >= per { Bits.MulMonotone(size, per, n); }
    assert size * (n + 1) == r + size;
    Bits.MulMonotone(size, n + 1, per);
  }

  /** Such a sequence of items inside the file delivers one slice of it. */
  lemma {:induction false} ItemsAreSlice(v: Volume, cluster: nat, offset: nat, size: Positive,
                                         count: nat, n: nat)
    requires n > 0 && Walk(v, cluster, n - 1).Cluster?
    requires ItemAt(offset, size, count) <= n * ClusterSize(v)
    requires ItemsFitClusters(v, offset, size)
    ensures offset <= ItemAt(offset, size, count)
    ensures ReadItems(v, cluster, offset, size, count)
         == Outcome(true, FileBytes(v, cluster, n)[offset..ItemAt(offset, size, count)])
    decreases count
  {
    hide ReadBytes, FileBytes, ClusterSize, ContiguousWhereItStraddles, ItemsFitClusters, ChunkOf, Within, Walk;
    if count > 0 {
      var at := ItemAt(offset, size, count - 1);
      NextItem(offset, size, count - 1);
      assert offset <= at;
      hide ItemAt;
      ItemsAreSlice(v, cluster, offset, size, count - 1, n);
      ItemWithinCluster(v, offset, size, count - 1);
      AlignedNeverStraddles(v, cluster, at, size);
      ReadIsSlice(v, cluster, at, size, n);
      var file := FileBytes(v, cluster, n);
      assert file[offset..at] + file[at..at + size] == file[offset..at + size];
    } else {
      assert ItemAt(offset, size, 0) == offset;
    }
  }
}
