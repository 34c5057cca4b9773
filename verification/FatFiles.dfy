/** Reading and writing files through their cluster chains. */
module FatFiles {
  import opened Options
  import opened FatDisk
  import opened FatChains
  import opened FatVolume
  import opened FatContent

  /** Every cluster of the volume is on the device. */
  ghost predicate DataThere(disk: Disk, g: Geometry) {
    forall c :: 2 <= c < g.Entries() ==> ClusterThere(disk, g, c)
  }

  /** A file's size fits its chain; an empty file may have no chain. */
  ghost predicate FileOk(g: Geometry, chains: Chains, first: nat, size: nat) {
    if first in chains then size <= Begin(g, |chains[first]|) else first < 2 && size == 0
  }

  function Min(a: nat, b: nat): nat {
    if a < b then a else b
  }

  // ---------------------------------------------------------------------------
  // Positions
  // ---------------------------------------------------------------------------

  function IndexAt(g: Geometry, pos: nat): nat
    requires 0 < ClusterSize(g)
  {
    pos / ClusterSize(g)
  }

  function OffsetAt(g: Geometry, pos: nat): nat
    requires 0 < ClusterSize(g)
  {
    pos % ClusterSize(g)
  }

  /** A position is an offset inside one of the chain's clusters. */
  lemma Locate(g: Geometry, pos: nat, n: nat)
    requires 0 < ClusterSize(g) && pos < Begin(g, n)
    ensures IndexAt(g, pos) < n && OffsetAt(g, pos) < ClusterSize(g)
    ensures pos == Begin(g, IndexAt(g, pos)) + OffsetAt(g, pos)
  {
    var d := ClusterSize(g);
    var k := pos / d;
    assert pos == d * k + pos % d;
    if n <= k && n != k { Multiples(n, k, d); }
  }

  /** A stretch of the file inside one cluster. */
  lemma Chunk(disk: Disk, g: Geometry, q: seq<nat>, k: nat, o: nat, n: nat)
    requires k < |q| && o + n <= ClusterSize(g)
    ensures Begin(g, k) + o + n <= |FileBytes(disk, g, q)|
    ensures Part(FileBytes(disk, g, q), Begin(g, k) + o, Begin(g, k) + o + n) ==
            Part(ClusterBytes(disk, g, q[k]), o, o + n)
  {
    hide Begin, ClusterSize, ClusterBytes, FileBytes, Part;
    FileAt(disk, g, q, k);
    SubSlice(FileBytes(disk, g, q), Begin(g, k), ClusterSize(g), o, n);
  }

  lemma SubSlice(f: seq<Byte>, b: nat, d: nat, o: nat, n: nat)
    requires b + d <= |f| && o + n <= d
    ensures Part(Part(f, b, b + d), o, o + n) == Part(f, b + o, b + o + n)
  {
    SliceOfSlice(f, b, b + d, o, o + n);
  }

  lemma SliceOfSlice(f: seq<Byte>, b: nat, e: nat, x: nat, y: nat)
    requires b <= e <= |f| && x <= y <= e - b
    ensures f[b..e][x..y] == f[b + x..b + y]
  {
    var inner := f[b..e];
    var u, v := inner[x..y], f[b + x..b + y];
    forall i | 0 <= i < y - x
      ensures u[i] == v[i]
    {
      assert u[i] == inner[x + i] && inner[x + i] == f[b + (x + i)];
    }
    assert u == v;
  }

  lemma ChunkPatch(f: seq<Byte>, b: nat, d: nat, o: nat, chunk: seq<Byte>)
    requires b + d <= |f| && o + |chunk| <= d
    ensures Patch(f, b, Patch(Part(f, b, b + d), o, chunk)) == Patch(f, b + o, chunk)
  {
    var n, inner := o + |chunk|, f[b..b + d];
    SliceOfSlice(f, b, b + d, 0, o);
    SliceOfSlice(f, b, b + d, n, d);
    assert inner[..o] == inner[0..o] && inner[n..] == inner[n..d];
    assert f[..b] + f[b..b + o] == f[..b + o] && f[b + n..b + d] + f[b + d..] == f[b + n..];
    assert f[..b] + (f[b..b + o] + chunk + f[b + n..b + d]) + f[b + d..] ==
           (f[..b] + f[b..b + o]) + chunk + (f[b + n..b + d] + f[b + d..]);
  }

  lemma PatchTwice(f: seq<Byte>, offset: nat, a: seq<Byte>, b: seq<Byte>)
    requires offset + |a| + |b| <= |f|
    ensures Patch(Patch(f, offset, a), offset + |a|, b) == Patch(f, offset, a + b)
  {
  }

  lemma PartSnoc(f: seq<Byte>, a: nat, b: nat, c: nat)
    requires a <= b <= c <= |f|
    ensures Part(f, a, b) + Part(f, b, c) == Part(f, a, c) && Part(f, a, a) == []
  {
  }

  // ---------------------------------------------------------------------------
  // Cluster I/O
  // ---------------------------------------------------------------------------

  /** `read_cluster`: None for a cluster number below 2 or one that lies outside the device. */
  method ReadCluster(v: Volume, c: nat) returns (r: Option<seq<Byte>>)
    ensures r == if ClusterThere(v.disk, v.g, c) then Some(ClusterBytes(v.disk, v.g, c)) else None
  {
    if c < 2 {
      return None;
    }
    var s := DataSector(v.g, c, 0);
    var data: seq<Byte> := [];
    for i := 0 to v.g.perCluster
      invariant data == Span(v.disk, s, i)
      invariant forall j: nat :: j < i ==> DataSector(v.g, c, j) in v.disk
    {
      SectorOfCluster(v.g, c, i);
      if s + i !in v.disk {
        return None;
      }
      data := data + v.disk[s + i];
    }
    return Some(data);
  }

  /** `write_cluster`: a write outside the device is refused as a whole. */
  method WriteCluster(v: Volume, c: nat, data: seq<Byte>) returns (ok: bool)
    requires |data| == ClusterSize(v.g)
    modifies v`disk
    ensures ok <==> old(ClusterThere(v.disk, v.g, c))
    ensures v.disk == if old(ClusterThere(v.disk, v.g, c)) then PutCluster(old(v.disk), v.g, c, data) else old(v.disk)
  {
    if c < 2 {
      return false;
    }
    var s := DataSector(v.g, c, 0);
    for i := 0 to v.g.perCluster
      invariant v.disk == old(v.disk) && forall j: nat :: j < i ==> DataSector(v.g, c, j) in v.disk
    {
      SectorOfCluster(v.g, c, i);
      if s + i !in v.disk {
        return false;
      }
    }
    for i := 0 to v.g.perCluster
      invariant i * SECTOR <= |data| && v.disk == PutSpan(old(v.disk), s, data, i)
    {
      v.disk := v.disk[s + i := data[i * SECTOR..(i + 1) * SECTOR]];
    }
    PutClusterKeeps(old(v.disk), v.g, c, data);
    return true;
  }

  /** A cluster write leaves the table, the cache and the existing sectors alone. */
  lemma StillMounted(disk: Disk, g: Geometry, c: nat, data: seq<Byte>, fat: seq<nat>, key: Option<nat>, buf: Sector)
    requires Sane(g) && Represents(disk, g, fat) && CacheOk(disk, g, key, buf) && DataThere(disk, g)
    requires 2 <= c < g.Entries() && |data| == ClusterSize(g)
    ensures var disk' := PutCluster(disk, g, c, data);
            Represents(disk', g, fat) && CacheOk(disk', g, key, buf) && DataThere(disk', g)
  {
    var disk' := PutCluster(disk, g, c, data);
    assert ClusterThere(disk, g, c);
    PutClusterKeeps(disk, g, c, data);
    hide PutCluster, FatSector, DataSector, Entry;
    forall f, k | 0 <= f < g.numFats && 0 <= k < |fat|
      ensures CopyOk(disk', g, f, k, fat)
    {
      assert CopyOk(disk, g, f, k, fat);
      FatInside(g, f, k);
    }
    if key.Some? {
      Multiples(0, g.numFats, g.fatSectors);
    }
    forall d | 2 <= d < g.Entries()
      ensures ClusterThere(disk', g, d)
    {
      assert ClusterThere(disk, g, d);
    }
  }

  lemma ChainShape(fat: seq<nat>, chains: Chains, first: nat)
    requires ChainsOk(fat, chains) && first in chains
    ensures forall i :: 0 <= i < |chains[first]| ==> 2 <= chains[first][i] < |fat|
    ensures forall i, j :: 0 <= i < |chains[first]| && 0 <= j < |chains[first]| ==>
              chains[first][i] == chains[first][j] ==> i == j
  {
    var q := chains[first];
    forall i | 0 <= i < |q|
      ensures 2 <= q[i] < |fat|
    {
      assert Linked(fat, q, i);
    }
    forall i, j | 0 <= i < |q| && 0 <= j < |q| && q[i] == q[j]
      ensures i == j
    {
      assert Position(chains, first, i) && Position(chains, first, j);
    }
  }

  // ---------------------------------------------------------------------------
  // read_at
  // ---------------------------------------------------------------------------

  /** The part of the stretch [pos, pos + want) that lies in one cluster. */
  method ReadChunk(v: Volume, first: nat, pos: nat, want: nat) returns (r: Option<seq<Byte>>)
    requires v.Valid() && DataThere(v.disk, v.g) && first in v.chains
    requires 0 < want && pos + want <= Begin(v.g, |v.chains[first]|)
    modifies v`cacheKey, v`cacheBuf
    ensures v.Valid() && r.Some? && 0 < |r.value| <= want
    ensures pos + |r.value| <= |FileBytes(v.disk, v.g, v.chains[first])|
    ensures r.value == Part(FileBytes(v.disk, v.g, v.chains[first]), pos, pos + |r.value|)
  {
    hide Represents, CacheOk, ChainsOk, BitmapOk, FileBytes, ClusterBytes, Begin, ClusterThere, ClusterSize, IndexAt,
      OffsetAt, Part, DataThere;
    ghost var q := v.chains[first];
    ChainShape(v.fat, v.chains, first);
    v.SmallTable();
    SomeSize(v.g);
    Locate(v.g, pos, |q|);
    var index, o := IndexAt(v.g, pos), OffsetAt(v.g, pos);
    var c := v.ClusterAtIndex(first, index);
    if c.None? || c.value < 2 {
      return None;
    }
    OneThere(v.disk, v.g, q[index]);
    var data := ReadCluster(v, c.value);
    if data.None? {
      return None;
    }
    var chunk := Min(want, ClusterSize(v.g) - o);
    Chunk(v.disk, v.g, q, index, o, chunk);
    ClusterLength(v.disk, v.g, c.value);
    return Some(Part(data.value, o, o + chunk));
  }

  /** `read_at` returns exactly the requested stretch of the file, cut at its size. */
  method ReadAt(v: Volume, first: nat, size: nat, offset: nat, n: nat) returns (out: seq<Byte>)
    requires v.Valid() && DataThere(v.disk, v.g) && FileOk(v.g, v.chains, first, size)
    modifies v`cacheKey, v`cacheBuf
    ensures v.Valid()
    ensures first in v.chains ==> size <= |FileBytes(v.disk, v.g, v.chains[first])|
    ensures out == if offset >= size then []
                   else Part(FileBytes(v.disk, v.g, v.chains[first]), offset, Min(offset + n, size))
  {
    hide FileBytes, Part, Begin, DataThere, Represents, CacheOk, ChainsOk, BitmapOk;
    out := [];
    if first in v.chains { FileLength(v.disk, v.g, v.chains[first]); }
    if offset >= size {
      return;
    }
    ghost var f := FileBytes(v.disk, v.g, v.chains[first]);
    var toRead := Min(n, size - offset);
    var total, pos := 0, offset;
    PartSnoc(f, offset, offset, offset);
    while total < toRead
      invariant v.Valid() && total <= toRead && pos == offset + total && out == Part(f, offset, pos)
    {
      var chunk := ReadChunk(v, first, pos, toRead - total);
      if chunk.None? {
        break;
      }
      PartSnoc(f, offset, pos, pos + |chunk.value|);
      out := out + chunk.value;
      total, pos := total + |chunk.value|, pos + |chunk.value|;
    }
  }

  lemma SomeSize(g: Geometry)
    requires Sane(g)
    ensures 0 < ClusterSize(g) && 0 < g.perCluster
  {
  }

  lemma OneThere(disk: Disk, g: Geometry, c: nat)
    requires DataThere(disk, g) && 2 <= c < g.Entries()
    ensures ClusterThere(disk, g, c)
  {
  }

  lemma ClusterLength(disk: Disk, g: Geometry, c: nat)
    ensures |ClusterBytes(disk, g, c)| == ClusterSize(g)
  {
  }

  // ---------------------------------------------------------------------------
  // Overwriting part of a file
  // ---------------------------------------------------------------------------

  /** Clusters outside `q` hold what they held. */
  ghost predicate OthersKept(disk: Disk, disk': Disk, g: Geometry, q: seq<nat>) {
    forall c :: 2 <= c && c !in q ==> ClusterBytes(disk', g, c) == ClusterBytes(disk, g, c)
  }

  lemma OthersKeptTrans(disk: Disk, disk1: Disk, disk2: Disk, g: Geometry, q: seq<nat>)
    requires OthersKept(disk, disk1, g, q) && OthersKept(disk1, disk2, g, q)
    ensures OthersKept(disk, disk2, g, q)
  {
    hide ClusterBytes;
  }

  /** The effect of one read-modify-write on the file and on other clusters. */
  lemma ChunkWritten(disk: Disk, g: Geometry, q: seq<nat>, k: nat, o: nat, chunk: seq<Byte>)
    requires 0 < g.perCluster && k < |q| && o + |chunk| <= ClusterSize(g)
    requires forall i :: 0 <= i < |q| ==> 2 <= q[i] && (q[i] == q[k] ==> i == k)
    ensures |Patch(ClusterBytes(disk, g, q[k]), o, chunk)| == ClusterSize(g)
    ensures Begin(g, k) + o + |chunk| <= |FileBytes(disk, g, q)|
    ensures var disk' := PutCluster(disk, g, q[k], Patch(ClusterBytes(disk, g, q[k]), o, chunk));
            && FileBytes(disk', g, q) == Patch(FileBytes(disk, g, q), Begin(g, k) + o, chunk)
            && OthersKept(disk, disk', g, q)
  {
    hide FileBytes, ClusterBytes, Begin, ClusterSize, PutCluster, OthersKept, Patch, Part;
    ClusterLength(disk, g, q[k]);
    FileAt(disk, g, q, k);
    var data := Patch(ClusterBytes(disk, g, q[k]), o, chunk);
    ChunkPatch(FileBytes(disk, g, q), Begin(g, k), ClusterSize(g), o, chunk);
    FileUpdate(disk, g, q, k, data);
    OneCluster(disk, g, q, k, data);
  }

  lemma OneCluster(disk: Disk, g: Geometry, q: seq<nat>, k: nat, data: seq<Byte>)
    requires 0 < g.perCluster && k < |q| && 2 <= q[k] && |data| == ClusterSize(g)
    ensures OthersKept(disk, PutCluster(disk, g, q[k], data), g, q)
  {
    hide ClusterBytes, PutCluster;
    forall c | 2 <= c && c !in q
      ensures ClusterBytes(PutCluster(disk, g, q[k], data), g, c) == ClusterBytes(disk, g, c)
    {
      PutClusterReads(disk, g, q[k], data, c);
    }
  }

  lemma PatchMore(f: seq<Byte>, offset: nat, buf: seq<Byte>, total: nat, n: nat)
    requires offset + |buf| <= |f| && total + n <= |buf|
    ensures Patch(Patch(f, offset, buf[..total]), offset + total, buf[total..][..n]) ==
            Patch(f, offset, buf[..total + n])
  {
    PatchTwice(f, offset, buf[..total], buf[total..][..n]);
    assert buf[..total] + buf[total..][..n] == buf[..total + n];
  }

  lemma PatchNone(f: seq<Byte>, offset: nat)
    requires offset <= |f|
    ensures Patch(f, offset, []) == f
  {
  }

  lemma KeptRefl(disk: Disk, g: Geometry, q: seq<nat>)
    ensures OthersKept(disk, disk, g, q)
  {
  }

  /** Every other file keeps its bytes. */
  lemma {:induction false} OtherFileKept(disk: Disk, disk': Disk, g: Geometry, q: seq<nat>, p: seq<nat>)
    requires OthersKept(disk, disk', g, q) && forall i :: 0 <= i < |p| ==> 2 <= p[i] && p[i] !in q
    ensures FileBytes(disk', g, p) == FileBytes(disk, g, p)
  {
    hide ClusterBytes;
    if p != [] {
      OtherFileKept(disk, disk', g, q, p[..|p| - 1]);
      assert p[|p| - 1] !in q;
    }
  }

  // ---------------------------------------------------------------------------
  // The directory entry
  // ---------------------------------------------------------------------------

  function Low(x: nat, k: nat): Byte
    requires k < 4
  {
    (if k == 0 then x else if k == 1 then x / 0x100 else if k == 2 then x / 0x1_0000 else x / 0x100_0000) % 0x100
  }

  /** The cluster with size and first cluster patched into the 32-byte entry at `at`. */
  function PatchEntry(data: seq<Byte>, at: nat, first: nat, size: nat): (r: seq<Byte>)
    requires at + 32 <= |data|
    ensures |r| == |data|
    ensures forall i :: 0 <= i < |data| && r[i] != data[i] ==> at + 20 <= i < at + 22 || at + 26 <= i < at + 32
  {
    data[at + 28 := Low(size, 0)][at + 29 := Low(size, 1)][at + 30 := Low(size, 2)][at + 31 := Low(size, 3)]
        [at + 26 := Low(first, 0)][at + 27 := Low(first, 1)][at + 20 := Low(first, 2)][at + 21 := Low(first, 3)]
  }

  /** The entry at `at` names `size` and, in its two halves, the first cluster. */
  ghost predicate EntryReads(data: seq<Byte>, at: nat, first: nat, size: nat) {
    && at + 32 <= |data| && Word(data, at + 28) == size
    && data[at + 26] as nat + 0x100 * (data[at + 27] as nat) + 0x1_0000 * (data[at + 20] as nat)
       + 0x100_0000 * (data[at + 21] as nat) == first
  }

  lemma PatchedReads(data: seq<Byte>, at: nat, first: nat, size: nat)
    requires at + 32 <= |data| && size < WORD_LIMIT && first < WORD_LIMIT
    ensures EntryReads(PatchEntry(data, at, first, size), at, first, size)
  {
    BytesAddUp(size);
    BytesAddUp(first);
  }

  lemma BytesAddUp(x: nat)
    requires x < WORD_LIMIT
    ensures Low(x, 0) as nat + 0x100 * (Low(x, 1) as nat) + 0x1_0000 * (Low(x, 2) as nat)
            + 0x100_0000 * (Low(x, 3) as nat) == x
  {
  }

  /** `update_dir_entry_size`. */
  method UpdateDirEntry(v: Volume, dir: nat, index: nat, first: nat, size: nat)
    requires v.Valid() && DataThere(v.disk, v.g) && dir < v.g.Entries()
    modifies v`disk
    ensures v.Valid() && DataThere(v.disk, v.g) && OthersKept(old(v.disk), v.disk, v.g, [dir])
    ensures v.disk.Keys == old(v.disk).Keys
    ensures 2 <= dir ==>
              var was := old(ClusterBytes(v.disk, v.g, dir));
              ClusterBytes(v.disk, v.g, dir) ==
              if 32 * index + 32 <= |was| then PatchEntry(was, 32 * index, first, size) else was
    ensures 2 <= dir && 32 * index + 32 <= ClusterSize(v.g) && size < WORD_LIMIT && first < WORD_LIMIT ==>
              EntryReads(ClusterBytes(v.disk, v.g, dir), 32 * index, first, size)
  {
    hide Represents, CacheOk, ChainsOk, BitmapOk, ClusterBytes, PutCluster, PatchEntry, OthersKept, EntryReads,
      ClusterSize;
    ClusterLength(v.disk, v.g, dir);
    KeptRefl(v.disk, v.g, [dir]);
    assert 2 <= dir ==> ClusterThere(v.disk, v.g, dir);
    var data := ReadCluster(v, dir);
    if data.None? || |data.value| < 32 * index + 32 {
      return;
    }
    if size < WORD_LIMIT && first < WORD_LIMIT { PatchedReads(data.value, 32 * index, first, size); }
    var patched := PatchEntry(data.value, 32 * index, first, size);
    StillMounted(v.disk, v.g, dir, patched, v.fat, v.cacheKey, v.cacheBuf);
    PutClusterKeeps(v.disk, v.g, dir, patched);
    OneCluster(v.disk, v.g, [dir], 0, patched);
    PutClusterReads(v.disk, v.g, dir, patched, dir);
    var ok := WriteCluster(v, dir, patched);
  }
}
