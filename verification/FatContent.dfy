/** Bytes behind the chains: sectors make clusters, clusters make files. */
module FatContent {
  import opened FatDisk

  // ---------------------------------------------------------------------------
  // Sectors
  // ---------------------------------------------------------------------------

  function SectorAt(disk: Disk, s: nat): Sector {
    if s in disk then disk[s] else ZeroSector()
  }

  /** The bytes of `n` sectors from `s` on. */
  function Span(disk: Disk, s: nat, n: nat): (r: seq<Byte>)
    ensures |r| == n * SECTOR
  {
    if n == 0 then [] else Span(disk, s, n - 1) + SectorAt(disk, s + n - 1)
  }

  lemma {:induction false} SpanSame(disk: Disk, disk': Disk, s: nat, n: nat)
    requires forall x: nat :: s <= x < s + n ==> SectorAt(disk', x) == SectorAt(disk, x)
    ensures Span(disk', s, n) == Span(disk, s, n)
  {
    if n > 0 {
      SpanSame(disk, disk', s, n - 1);
    }
  }

  /** The disk after the first `n` sectors of `data` were written at `s`. */
  function PutSpan(disk: Disk, s: nat, data: seq<Byte>, n: nat): Disk
    requires n * SECTOR <= |data|
  {
    if n == 0 then disk else PutSpan(disk, s, data, n - 1)[s + n - 1 := data[(n - 1) * SECTOR..n * SECTOR]]
  }

  lemma {:induction false} PutSpanAt(disk: Disk, s: nat, data: seq<Byte>, n: nat, x: nat)
    requires n * SECTOR <= |data|
    ensures x < s || s + n <= x ==>
              && (x in PutSpan(disk, s, data, n) <==> x in disk)
              && SectorAt(PutSpan(disk, s, data, n), x) == SectorAt(disk, x)
    ensures s <= x < s + n ==>
              && x in PutSpan(disk, s, data, n)
              && SectorAt(PutSpan(disk, s, data, n), x) == data[(x - s) * SECTOR..(x - s + 1) * SECTOR]
  {
    if n > 0 {
      PutSpanAt(disk, s, data, n - 1, x);
    }
  }

  lemma {:induction false} SpanOfPut(disk: Disk, s: nat, data: seq<Byte>, n: nat, m: nat)
    requires m <= n && n * SECTOR <= |data|
    ensures Span(PutSpan(disk, s, data, n), s, m) == data[..m * SECTOR]
  {
    hide PutSpan;
    if m > 0 {
      SpanOfPut(disk, s, data, n, m - 1);
      PutSpanAt(disk, s, data, n, s + m - 1);
      var a, b := (m - 1) * SECTOR, m * SECTOR;
      assert data[..b] == data[..a] + data[a..b];
    }
  }

  // ---------------------------------------------------------------------------
  // Clusters
  // ---------------------------------------------------------------------------

  function ClusterSize(g: Geometry): nat {
    g.perCluster * SECTOR
  }

  function ClusterBytes(disk: Disk, g: Geometry, c: nat): (r: seq<Byte>)
    ensures |r| == ClusterSize(g)
  {
    Span(disk, g.start + g.DataStart() + (if c < 2 then 0 else c - 2) * g.perCluster, g.perCluster)
  }

  /** Every sector of cluster `c` exists. */
  ghost predicate ClusterThere(disk: Disk, g: Geometry, c: nat) {
    2 <= c && forall i: nat :: i < g.perCluster ==> DataSector(g, c, i) in disk
  }

  /** The disk after cluster `c` was overwritten. */
  function PutCluster(disk: Disk, g: Geometry, c: nat, data: seq<Byte>): Disk
    requires 2 <= c && |data| == ClusterSize(g)
  {
    PutSpan(disk, DataSector(g, c, 0), data, g.perCluster)
  }

  lemma PutClusterReads(disk: Disk, g: Geometry, c: nat, data: seq<Byte>, d: nat)
    requires 0 < g.perCluster && 2 <= c && 2 <= d && |data| == ClusterSize(g)
    ensures ClusterBytes(PutCluster(disk, g, c, data), g, d) == if d == c then data else ClusterBytes(disk, g, d)
  {
    var disk' := PutCluster(disk, g, c, data);
    if d == c {
      SpanOfPut(disk, DataSector(g, c, 0), data, g.perCluster, g.perCluster);
    } else {
      var s := DataSector(g, d, 0);
      forall x: nat | s <= x < s + g.perCluster
        ensures SectorAt(disk', x) == SectorAt(disk, x)
      {
        OutsideCluster(g, c, d, x - s);
        PutSpanAt(disk, DataSector(g, c, 0), data, g.perCluster, x);
      }
      SpanSame(disk, disk', s, g.perCluster);
    }
  }

  lemma OutsideCluster(g: Geometry, c: nat, d: nat, i: nat)
    requires 2 <= c && 2 <= d && c != d && i < g.perCluster
    ensures || DataSector(g, d, 0) + i < DataSector(g, c, 0)
            || DataSector(g, c, 0) + g.perCluster <= DataSector(g, d, 0) + i
  {
    var a, b, n := c - 2, d - 2, g.perCluster;
    if a < b { Multiples(a, b, n); } else { Multiples(b, a, n); }
  }

  /** A cluster write stays inside the data area and creates no sector. */
  lemma PutClusterKeeps(disk: Disk, g: Geometry, c: nat, data: seq<Byte>)
    requires ClusterThere(disk, g, c) && |data| == ClusterSize(g)
    ensures PutCluster(disk, g, c, data).Keys == disk.Keys
    ensures forall x :: x in disk && x < g.start + g.DataStart() ==> PutCluster(disk, g, c, data)[x] == disk[x]
  {
    var disk', s := PutCluster(disk, g, c, data), DataSector(g, c, 0);
    forall x: nat
      ensures x in disk' <==> x in disk
      ensures x in disk && x < g.start + g.DataStart() ==> disk'[x] == disk[x]
    {
      PutSpanAt(disk, s, data, g.perCluster, x);
      SectorOfCluster(g, c, if s <= x then x - s else 0);
      hide DataSector, PutSpan;
      if s <= x < s + g.perCluster { assert DataSector(g, c, x - s) in disk; }
    }
  }

  lemma SectorOfCluster(g: Geometry, c: nat, i: nat)
    requires 2 <= c
    ensures DataSector(g, c, i) == DataSector(g, c, 0) + i && g.start + g.DataStart() <= DataSector(g, c, 0)
  {
  }

  /** Where cluster `k` of a chain begins in the file. */
  function Begin(g: Geometry, k: nat): nat {
    k * ClusterSize(g)
  }

  lemma BeginStep(g: Geometry, k: nat)
    ensures Begin(g, k + 1) == Begin(g, k) + ClusterSize(g) && Begin(g, 0) == 0
  {
    var d := ClusterSize(g);
    assert (k + 1) * d == k * d + d;
  }

  lemma BeginOrder(g: Geometry, j: nat, k: nat)
    requires j < k
    ensures Begin(g, j) + ClusterSize(g) <= Begin(g, k)
  {
    Multiples(j, k, ClusterSize(g));
  }

  // ---------------------------------------------------------------------------
  // Files
  // ---------------------------------------------------------------------------

  /** The bytes with `buf` in place of what stood at `offset`. */
  function Patch(f: seq<Byte>, offset: nat, buf: seq<Byte>): (r: seq<Byte>)
    requires offset + |buf| <= |f|
    ensures |r| == |f|
  {
    f[..offset] + buf + f[offset + |buf|..]
  }

  /** The stretch [a, b) of the bytes. */
  function Part(f: seq<Byte>, a: nat, b: nat): (r: seq<Byte>)
    requires a <= b <= |f|
    ensures |r| == b - a
  {
    f[a..b]
  }

  /** The bytes of the clusters of `q`, one after the other. */
  function FileBytes(disk: Disk, g: Geometry, q: seq<nat>): seq<Byte> {
    if q == [] then [] else FileBytes(disk, g, q[..|q| - 1]) + ClusterBytes(disk, g, q[|q| - 1])
  }

  lemma {:induction false} FileLength(disk: Disk, g: Geometry, q: seq<nat>)
    ensures |FileBytes(disk, g, q)| == Begin(g, |q|)
  {
    hide Begin;
    BeginStep(g, if q == [] then 0 else |q| - 1);
    if q != [] {
      FileLength(disk, g, q[..|q| - 1]);
    }
  }

  /** Cluster `k` of the chain holds the bytes from k times the cluster size on. */
  lemma {:induction false} FileAt(disk: Disk, g: Geometry, q: seq<nat>, k: nat)
    requires k < |q|
    ensures Begin(g, k) + ClusterSize(g) <= |FileBytes(disk, g, q)|
    ensures Part(FileBytes(disk, g, q), Begin(g, k), Begin(g, k) + ClusterSize(g)) == ClusterBytes(disk, g, q[k])
  {
    hide Begin, ClusterSize, ClusterBytes;
    var n := |q| - 1;
    FileLength(disk, g, q);
    FileLength(disk, g, q[..n]);
    BeginStep(g, n);
    if k < n {
      BeginOrder(g, k, n);
      FileAt(disk, g, q[..n], k);
      var front, a, b := FileBytes(disk, g, q[..n]), Begin(g, k), Begin(g, k) + ClusterSize(g);
      assert FileBytes(disk, g, q)[a..b] == front[a..b];
    }
  }

  /** Overwriting one cluster of the chain replaces its stretch of the file. */
  lemma {:induction false} FileUpdate(disk: Disk, g: Geometry, q: seq<nat>, k: nat, data: seq<Byte>)
    requires 0 < g.perCluster && k < |q| && |data| == ClusterSize(g)
    requires forall i :: 0 <= i < |q| ==> 2 <= q[i] && (q[i] == q[k] ==> i == k)
    ensures Begin(g, k) + ClusterSize(g) <= |FileBytes(disk, g, q)|
    ensures FileBytes(PutCluster(disk, g, q[k], data), g, q) == Patch(FileBytes(disk, g, q), Begin(g, k), data)
  {
    hide Begin, ClusterSize, ClusterBytes, PutCluster;
    var n, d := |q| - 1, ClusterSize(g);
    var all, front := FileBytes(disk, g, q), FileBytes(disk, g, q[..n]);
    FileLength(disk, g, q);
    FileLength(disk, g, q[..n]);
    BeginStep(g, n);
    PutClusterReads(disk, g, q[k], data, q[n]);
    if k == n {
      OtherFile(disk, g, q[..n], q[k], data);
      assert all[..Begin(g, n)] == front;
    } else {
      BeginOrder(g, k, n);
      FileUpdate(disk, g, q[..n], k, data);
      var last := ClusterBytes(disk, g, q[n]);
      var a, b := Begin(g, k), Begin(g, k) + d;
      assert all[..a] == front[..a] && all[b..] == front[b..] + last;
    }
  }

  /** A file that does not contain the cluster is untouched. */
  lemma {:induction false} OtherFile(disk: Disk, g: Geometry, q: seq<nat>, c: nat, data: seq<Byte>)
    requires 0 < g.perCluster && 2 <= c && |data| == ClusterSize(g) && c !in q && forall i :: 0 <= i < |q| ==> 2 <= q[i]
    ensures FileBytes(PutCluster(disk, g, c, data), g, q) == FileBytes(disk, g, q)
  {
    if q != [] {
      OtherFile(disk, g, q[..|q| - 1], c, data);
      PutClusterReads(disk, g, c, data, q[|q| - 1]);
    }
  }
}
