/** Directories on disk: slots in the clusters of a chain, written and scanned across cluster borders. */
module FatDirectory {
  import opened FatDisk
  import opened FatChains
  import opened FatVolume
  import opened FatContent
  import opened FatFiles
  import opened FatNames

  // ---------------------------------------------------------------------------
  // Bytes as slots
  // ---------------------------------------------------------------------------

  /** The bytes cut into slots. */
  function SlotsOf(f: seq<Byte>): (dir: Dir)
    ensures SLOT * |dir| <= |f| < SLOT * |dir| + SLOT
    decreases |f|
  {
    if |f| < SLOT then [] else [f[..SLOT]] + SlotsOf(f[SLOT..])
  }

  lemma {:induction false} SlotBytes(f: seq<Byte>, i: nat)
    requires i < |SlotsOf(f)|
    ensures SLOT * i + SLOT <= |f| && SlotsOf(f)[i] == f[SLOT * i..SLOT * i + SLOT]
    decreases i
  {
    if 0 < i {
      SlotBytes(f[SLOT..], i - 1);
      SliceOfSlice(f, SLOT, |f|, SLOT * (i - 1), SLOT * i);
      assert f[SLOT..] == f[SLOT..|f|];
    }
  }

  /** Overwriting the bytes of one slot replaces that slot. */
  lemma SlotPatched(f: seq<Byte>, i: nat, slot: Slot)
    requires i < |SlotsOf(f)|
    ensures SLOT * i + SLOT <= |f| && SlotsOf(Patch(f, SLOT * i, slot)) == SlotsOf(f)[i := slot]
  {
    SlotBytes(f, i);
    var f', dir, dir' := Patch(f, SLOT * i, slot), SlotsOf(f), SlotsOf(Patch(f, SLOT * i, slot));
    hide SlotsOf, Patch;
    assert |dir'| == |dir|;
    forall k | 0 <= k < |dir|
      ensures dir'[k] == dir[i := slot][k]
    {
      OnePatched(f, i, slot, k);
    }
  }

  lemma OnePatched(f: seq<Byte>, i: nat, slot: Slot, k: nat)
    requires SLOT * i + SLOT <= |f| && k < |SlotsOf(f)| && k < |SlotsOf(Patch(f, SLOT * i, slot))|
    ensures SlotsOf(Patch(f, SLOT * i, slot))[k] == if k == i then slot else SlotsOf(f)[k]
  {
    hide SlotsOf, Patch;
    var f' := Patch(f, SLOT * i, slot);
    SlotBytes(f, k);
    SlotBytes(f', k);
    if k == i {
      PatchHere(f, SLOT * i, slot);
    } else {
      PatchElsewhere(f, SLOT * i, slot, SLOT * k);
    }
  }

  lemma PatchHere(f: seq<Byte>, o: nat, slot: Slot)
    requires o + SLOT <= |f|
    ensures Patch(f, o, slot)[o..o + SLOT] == slot
  {
  }

  lemma PatchElsewhere(f: seq<Byte>, o: nat, slot: Slot, a: nat)
    requires o + SLOT <= |f| && a + SLOT <= |f| && (a + SLOT <= o || o + SLOT <= a)
    ensures Patch(f, o, slot)[a..a + SLOT] == f[a..a + SLOT]
  {
    var x, y := Patch(f, o, slot)[a..a + SLOT], f[a..a + SLOT];
    forall k | 0 <= k < SLOT
      ensures x[k] == y[k]
    {
    }
  }

  lemma {:induction false} SlotsConcat(a: seq<Byte>, b: seq<Byte>, n: nat)
    requires |a| == SLOT * n
    ensures SlotsOf(a + b) == SlotsOf(a) + SlotsOf(b) && |SlotsOf(a)| == n
    decreases n
  {
    if n == 0 {
      assert a + b == b;
    } else {
      assert (a + b)[..SLOT] == a[..SLOT] && (a + b)[SLOT..] == a[SLOT..] + b;
      SlotsConcat(a[SLOT..], b, n - 1);
    }
  }

  // ---------------------------------------------------------------------------
  // Slots per cluster
  // ---------------------------------------------------------------------------

  function PerCluster(g: Geometry): nat {
    g.perCluster * 16
  }

  /** The number of slots in `k` clusters. */
  function SlotsIn(g: Geometry, k: nat): nat {
    k * PerCluster(g)
  }

  lemma SlotsInBytes(g: Geometry, k: nat)
    ensures Begin(g, k) == SLOT * SlotsIn(g, k) && ClusterSize(g) == SLOT * PerCluster(g)
  {
    var n := g.perCluster;
    assert k * (n * SECTOR) == SLOT * (k * (n * 16));
  }

  lemma SlotsInStep(g: Geometry, k: nat)
    ensures SlotsIn(g, k + 1) == SlotsIn(g, k) + PerCluster(g) && SlotsIn(g, 0) == 0
  {
    var d := PerCluster(g);
    assert (k + 1) * d == k * d + d;
  }

  /** The directory kept in the clusters of `q`. */
  function DirOf(disk: Disk, g: Geometry, q: seq<nat>): Dir {
    SlotsOf(FileBytes(disk, g, q))
  }

  lemma DirSize(disk: Disk, g: Geometry, q: seq<nat>)
    ensures |DirOf(disk, g, q)| == SlotsIn(g, |q|)
  {
    hide SlotsOf, FileBytes, Begin, SlotsIn;
    FileLength(disk, g, q);
    SlotsInBytes(g, |q|);
  }

  /** One more cluster appends its slots. */
  lemma DirSnoc(disk: Disk, g: Geometry, q: seq<nat>, k: nat)
    requires k < |q|
    ensures DirOf(disk, g, q[..k + 1]) == DirOf(disk, g, q[..k]) + SlotsOf(ClusterBytes(disk, g, q[k]))
    ensures |SlotsOf(ClusterBytes(disk, g, q[k]))| == PerCluster(g)
  {
    hide SlotsOf, Begin, SlotsIn, ClusterBytes, ClusterSize;
    assert q[..k + 1][..k] == q[..k] && q[..k + 1][k] == q[k];
    FileLength(disk, g, q[..k]);
    SlotsInBytes(g, k);
    ClusterLength(disk, g, q[k]);
    SlotsConcat(FileBytes(disk, g, q[..k]), ClusterBytes(disk, g, q[k]), SlotsIn(g, k));
    SlotsConcat(ClusterBytes(disk, g, q[k]), [], PerCluster(g));
  }

  lemma ScanSnoc(s: Scan, dir: Dir, slot: Slot)
    ensures ScanFrom(s, dir + [slot]) == Step(ScanFrom(s, dir), slot)
  {
    ScanConcat(s, dir, [slot]);
    var s1 := ScanFrom(s, dir);
    assert [slot][1..] == [] && ScanFrom(s1, [slot]) == ScanFrom(Step(s1, slot), []);
  }

  // ---------------------------------------------------------------------------
  // list_dir
  // ---------------------------------------------------------------------------

  /** The scan of one cluster's slots. */
  method ScanCluster(data: seq<Byte>, s: Scan) returns (r: Scan)
    ensures r == ScanFrom(s, SlotsOf(data))
  {
    hide SlotsOf, ScanFrom, Step;
    r := s;
    var n := |data| / SLOT;
    ghost var dir := SlotsOf(data);
    assert |dir| == n;
    ScanNothing(s, dir);
    for i := 0 to n
      invariant r == ScanFrom(s, dir[..i])
    {
      SlotBytes(data, i);
      ScanSnoc(s, dir[..i], dir[i]);
      assert dir[..i + 1] == dir[..i] + [dir[i]];
      r := Step(r, data[SLOT * i..SLOT * i + SLOT]);
      if r.done {
        Stopped(r, dir[i + 1..]);
        ScanConcat(s, dir[..i + 1], dir[i + 1..]);
        assert dir[..i + 1] + dir[i + 1..] == dir;
        return;
      }
    }
    assert dir[..n] == dir;
  }

  lemma ScanNothing(s: Scan, dir: Dir)
    ensures ScanFrom(s, dir[..0]) == s
  {
  }

  /** `list_dir` follows the chain and lists exactly the scan of its slots. */
  method ListDir(v: Volume, first: nat) returns (out: seq<Listed>)
    requires v.Valid() && DataThere(v.disk, v.g) && first in v.chains
    modifies v`cacheKey, v`cacheBuf
    ensures v.Valid()
    ensures out == List(DirOf(v.disk, v.g, v.chains[first]))
  {
    hide Represents, CacheOk, ChainsOk, BitmapOk, DataThere, ScanFrom, SlotsOf, ClusterBytes, DirOf, ClusterThere;
    ghost var q := v.chains[first];
    ghost var dir := DirOf(v.disk, v.g, q);
    v.SmallTable();
    FirstOf(v.fat, v.chains, first);
    var cluster: nat := first;
    var s := START;
    ghost var k := 0;
    EmptyDir(v.disk, v.g, q);
    while !IsEof(cluster) && cluster != BAD
      invariant v.Valid() && k <= |q| && !s.done && s == ScanFrom(START, DirOf(v.disk, v.g, q[..k]))
      invariant k < |q| ==> cluster == q[k]
      invariant k == |q| ==> IsEof(cluster)
      decreases |q| - k
    {
      InChainUsed(v.fat, v.chains, first, k);
      OneThere(v.disk, v.g, cluster);
      var data := ReadCluster(v, cluster);
      if data.None? {
        break;
      }
      DirSnoc(v.disk, v.g, q, k);
      ScanConcat(START, DirOf(v.disk, v.g, q[..k]), SlotsOf(data.value));
      s := ScanCluster(data.value, s);
      if s.done {
        EarlyStop(v.disk, v.g, q, k + 1);
        return s.out;
      }
      var e := v.ReadFatEntry(cluster);
      if e.None? {
        break;
      }
      cluster := e.value;
      k := k + 1;
    }
    assert k == |q| by { if k < |q| { InChainUsed(v.fat, v.chains, first, k); } }
    assert q[..k] == q;
    return s.out;
  }

  lemma EmptyDir(disk: Disk, g: Geometry, q: seq<nat>)
    ensures ScanFrom(START, DirOf(disk, g, q[..0])) == START
  {
    assert q[..0] == [];
  }

  /** Once the scan has stopped, later clusters add nothing. */
  lemma EarlyStop(disk: Disk, g: Geometry, q: seq<nat>, k: nat)
    requires k <= |q| && ScanFrom(START, DirOf(disk, g, q[..k])).done
    ensures List(DirOf(disk, g, q)) == ScanFrom(START, DirOf(disk, g, q[..k])).out
  {
    hide SlotsOf, FileBytes;
    DirSplit(disk, g, q, k);
    var a, b := DirOf(disk, g, q[..k]), DirOf(disk, g, q[k..]);
    ScanConcat(START, a, b);
    Stopped(ScanFrom(START, a), b);
  }

  lemma {:induction false} DirSplit(disk: Disk, g: Geometry, q: seq<nat>, k: nat)
    requires k <= |q|
    ensures DirOf(disk, g, q) == DirOf(disk, g, q[..k]) + DirOf(disk, g, q[k..])
    decreases |q|
  {
    hide DirOf, SlotsOf, ClusterBytes;
    if k == |q| {
      assert q[..k] == q && q[k..] == [];
      NoDir(disk, g);
    } else {
      var n := |q| - 1;
      DirSplit(disk, g, q[..n], k);
      assert q[..n][..k] == q[..k] && q[..n][k..] == q[k..][..n - k] && q[..n + 1] == q;
      DirSnoc(disk, g, q, n);
      DirSnoc(disk, g, q[k..], n - k);
      assert q[k..][..n - k + 1] == q[k..] && q[k..][n - k] == q[n];
    }
  }

  lemma NoDir(disk: Disk, g: Geometry)
    ensures DirOf(disk, g, []) == []
  {
  }

  // ---------------------------------------------------------------------------
  // write_lfn_and_83
  // ---------------------------------------------------------------------------

  /** The cluster being filled, its buffer, and the slot to fill next. */
  datatype Cursor = Cursor(cluster: nat, buf: seq<Byte>, index: nat)

  /** With the buffer flushed, the directory would be `dir` with `done` written at `p`; the cursor stands
      behind them, in cluster `k` of the chain. */
  ghost predicate Pending(disk: Disk, g: Geometry, q: seq<nat>, k: nat, c: Cursor, dir: Dir, p: nat, done: Dir) {
    && k < |q| && c.cluster == q[k] && |c.buf| == ClusterSize(g) && c.index <= PerCluster(g)
    && p + |done| == SlotsIn(g, k) + c.index && p + |done| <= |dir|
    && Begin(g, k) + ClusterSize(g) <= |FileBytes(disk, g, q)|
    && SlotsOf(Patch(FileBytes(disk, g, q), Begin(g, k), c.buf)) == Replace(dir, p, done)
  }

  lemma PatchNested(f: seq<Byte>, b: nat, buf: seq<Byte>, o: nat, x: seq<Byte>)
    requires b + |buf| <= |f| && o + |x| <= |buf|
    ensures Patch(f, b, Patch(buf, o, x)) == Patch(Patch(f, b, buf), b + o, x)
  {
    var n := o + |x|;
    var g := Patch(f, b, buf);
    assert g[..b + o] == f[..b] + buf[..o];
    assert g[b + n..] == buf[n..] + f[b + |buf|..];
    assert f[..b] + (buf[..o] + x + buf[n..]) + f[b + |buf|..] == (f[..b] + buf[..o]) + x + (buf[n..] + f[b + |buf|..]);
  }

  lemma ReplaceSnoc(dir: Dir, p: nat, done: Dir, slot: Slot)
    requires p + |done| < |dir|
    ensures |Replace(dir, p, done)| == |dir|
    ensures Replace(dir, p, done)[p + |done| := slot] == Replace(dir, p, done + [slot])
  {
  }

  lemma PutSlot(disk: Disk, g: Geometry, q: seq<nat>, k: nat, c: Cursor, dir: Dir, p: nat, done: Dir, slot: Slot)
    requires Pending(disk, g, q, k, c, dir, p, done) && c.index < PerCluster(g) && p + |done| < |dir|
    ensures SLOT * c.index + SLOT <= |c.buf|
    ensures Pending(disk, g, q, k, Cursor(c.cluster, Patch(c.buf, SLOT * c.index, slot), c.index + 1), dir, p,
                    done + [slot])
  {
    hide SlotsOf, FileBytes, Begin, SlotsIn, ClusterSize, PerCluster, Patch, Replace;
    SlotsInBytes(g, k);
    var f, b, o := FileBytes(disk, g, q), Begin(g, k), SLOT * c.index;
    ReplaceSnoc(dir, p, done, slot);
    PatchNested(f, b, c.buf, o, slot);
    SlotPatched(Patch(f, b, c.buf), p + |done|, slot);
  }

  lemma StartPending(disk: Disk, g: Geometry, q: seq<nat>, k: nat, i: nat)
    requires k < |q| && i <= PerCluster(g)
    ensures SlotsIn(g, k) + i <= |DirOf(disk, g, q)|
    ensures Pending(disk, g, q, k, Cursor(q[k], ClusterBytes(disk, g, q[k]), i), DirOf(disk, g, q),
                    SlotsIn(g, k) + i, [])
  {
    hide SlotsOf, FileBytes, ClusterBytes, SlotsIn, PerCluster, ClusterSize, Begin, DirOf, Patch, Part;
    FileAt(disk, g, q, k);
    DirSize(disk, g, q);
    RoomIn(g, k, |q|);
    ClusterLength(disk, g, q[k]);
    PatchItself(FileBytes(disk, g, q), Begin(g, k), ClusterSize(g));
    DirIs(disk, g, q);
    ReplaceNothing(DirOf(disk, g, q), SlotsIn(g, k) + i);
  }

  lemma DirIs(disk: Disk, g: Geometry, q: seq<nat>)
    ensures DirOf(disk, g, q) == SlotsOf(FileBytes(disk, g, q))
  {
  }

  lemma ReplaceNothing(dir: Dir, p: nat)
    requires p <= |dir|
    ensures Replace(dir, p, []) == dir
  {
  }

  lemma RoomIn(g: Geometry, k: nat, n: nat)
    requires k < n
    ensures SlotsIn(g, k) + PerCluster(g) <= SlotsIn(g, n)
  {
    Multiples(k, n, PerCluster(g));
  }

  lemma PatchItself(f: seq<Byte>, b: nat, d: nat)
    requires b + d <= |f|
    ensures Patch(f, b, Part(f, b, b + d)) == f
  {
  }

  ghost predicate ChainFine(q: seq<nat>) {
    && (forall i :: 0 <= i < |q| ==> 2 <= q[i])
    && (forall i, j :: 0 <= i < |q| && 0 <= j < |q| && q[i] == q[j] ==> i == j)
  }

  /** Flushing makes the pending directory real. */
  lemma Flushed(disk: Disk, g: Geometry, q: seq<nat>, k: nat, c: Cursor, dir: Dir, p: nat, done: Dir)
    requires Pending(disk, g, q, k, c, dir, p, done) && ChainFine(q) && 0 < g.perCluster
    ensures DirOf(PutCluster(disk, g, c.cluster, c.buf), g, q) == Replace(dir, p, done)
    ensures OthersKept(disk, PutCluster(disk, g, c.cluster, c.buf), g, q)
  {
    hide SlotsOf, FileBytes, Begin, SlotsIn, ClusterSize, PerCluster, Patch, Replace, PutCluster, OthersKept;
    FileUpdate(disk, g, q, k, c.buf);
    OneCluster(disk, g, q, k, c.buf);
  }

  /** The next cluster is loaded when the current one is full. */
  lemma NextPending(disk: Disk, g: Geometry, q: seq<nat>, k: nat, c: Cursor, dir: Dir, p: nat, done: Dir)
    requires Pending(disk, g, q, k, c, dir, p, done) && c.index == PerCluster(g) && k + 1 < |q|
    requires DirOf(disk, g, q) == Replace(dir, p, done)
    ensures Pending(disk, g, q, k + 1, Cursor(q[k + 1], ClusterBytes(disk, g, q[k + 1]), 0), dir, p, done)
  {
    hide SlotsOf, FileBytes, Begin, SlotsIn, ClusterSize, PerCluster, Patch, Replace, ClusterBytes, Part, DirOf;
    SlotsInStep(g, k);
    FileAt(disk, g, q, k + 1);
    ClusterLength(disk, g, q[k + 1]);
    PatchItself(FileBytes(disk, g, q), Begin(g, k + 1), ClusterSize(g));
    DirIs(disk, g, q);
  }

  /** The pending directory depends on the disk only through what is behind the buffer. */
  lemma StillPending(disk: Disk, g: Geometry, q: seq<nat>, k: nat, c: Cursor, dir: Dir, p: nat, done: Dir)
    requires Pending(disk, g, q, k, c, dir, p, done) && ChainFine(q) && 0 < g.perCluster
    ensures Pending(PutCluster(disk, g, c.cluster, c.buf), g, q, k, c, dir, p, done)
  {
    hide SlotsOf, FileBytes, Begin, SlotsIn, ClusterSize, PerCluster, Patch, Replace, PutCluster;
    FileUpdate(disk, g, q, k, c.buf);
    PatchAgain(FileBytes(disk, g, q), Begin(g, k), c.buf);
  }

  lemma PatchAgain(f: seq<Byte>, b: nat, buf: seq<Byte>)
    requires b + |buf| <= |f|
    ensures Patch(Patch(f, b, buf), b, buf) == Patch(f, b, buf)
  {
  }

  /** Put one slot at the cursor, first flushing and following the chain when the cluster is full. */
  method PlaceSlot(v: Volume, c: Cursor, slot: Slot, ghost first: nat, ghost k: nat, ghost dir: Dir, ghost p: nat,
                   ghost done: Dir)
    returns (c': Cursor, ghost k': nat)
    requires v.Valid() && DataThere(v.disk, v.g) && first in v.chains
    requires Pending(v.disk, v.g, v.chains[first], k, c, dir, p, done) && p + |done| < |dir|
    requires |dir| == SlotsIn(v.g, |v.chains[first]|)
    modifies v`disk, v`cacheKey, v`cacheBuf
    ensures v.Valid() && DataThere(v.disk, v.g) && OthersKept(old(v.disk), v.disk, v.g, v.chains[first])
    ensures Pending(v.disk, v.g, v.chains[first], k', c', dir, p, done + [slot])
    ensures 0 < c'.index
  {
    hide Represents, CacheOk, ChainsOk, BitmapOk, DataThere, ClusterThere, Pending, OthersKept, DirOf, Replace,
      ClusterBytes, PutCluster, SlotsIn, PerCluster, Patch;
    ghost var q := v.chains[first];
    v.SmallTable();
    SomeSize(v.g);
    FineChain(v.fat, v.chains, first);
    PendingFacts(v.disk, v.g, q, k, c, dir, p, done);
    KeptRefl(v.disk, v.g, q);
    c', k' := c, k;
    if c.index >= v.g.perCluster * 16 {
      MoreClusters(v.g, k, |q|, c, dir, p, done);
      InChainUsed(v.fat, v.chains, first, k);
      StillMounted(v.disk, v.g, c.cluster, c.buf, v.fat, v.cacheKey, v.cacheBuf);
      Flushed(v.disk, v.g, q, k, c, dir, p, done);
      StillPending(v.disk, v.g, q, k, c, dir, p, done);
      OneThere(v.disk, v.g, c.cluster);
      var ok := WriteCluster(v, c.cluster, c.buf);
      var e := v.ReadFatEntry(c.cluster);
      OneThere(v.disk, v.g, e.value);
      var data := ReadCluster(v, e.value);
      NextPending(v.disk, v.g, q, k, c, dir, p, done);
      c', k' := Cursor(e.value, data.value, 0), k + 1;
    }
    PerClusterIs(v.g);
    PutSlot(v.disk, v.g, q, k', c', dir, p, done, slot);
    c' := Cursor(c'.cluster, Patch(c'.buf, SLOT * c'.index, slot), c'.index + 1);
  }

  lemma PerClusterIs(g: Geometry)
    ensures PerCluster(g) == g.perCluster * 16
  {
  }

  lemma FineChain(fat: seq<nat>, chains: Chains, first: nat)
    requires ChainsOk(fat, chains) && first in chains
    ensures ChainFine(chains[first])
  {
    ChainShape(fat, chains, first);
  }

  lemma PendingFacts(disk: Disk, g: Geometry, q: seq<nat>, k: nat, c: Cursor, dir: Dir, p: nat, done: Dir)
    requires Pending(disk, g, q, k, c, dir, p, done)
    ensures k < |q| && c.cluster == q[k] && |c.buf| == ClusterSize(g) && c.index <= PerCluster(g)
    ensures p + |done| == SlotsIn(g, k) + c.index && PerCluster(g) == g.perCluster * 16
  {
  }

  /** A full cluster with slots still to come is not the last one. */
  lemma MoreClusters(g: Geometry, k: nat, n: nat, c: Cursor, dir: Dir, p: nat, done: Dir)
    requires k < n && c.index == PerCluster(g) && p + |done| == SlotsIn(g, k) + c.index
    requires p + |done| < |dir| == SlotsIn(g, n)
    ensures k + 1 < n
  {
    SlotsInStep(g, k);
  }

  /** Write the set of slots for a long name at slot `index` of `cluster`, across cluster borders; `at` is
      where the 8.3 entry went. */
  method WriteLfnAnd83(v: Volume, cluster: nat, index: nat, name: Name, short: seq<Byte>, attr: Byte,
                       target: nat, size: nat, ghost first: nat, ghost k: nat)
    returns (at: (nat, nat), ghost last: nat)
    requires v.Valid() && DataThere(v.disk, v.g) && first in v.chains && k < |v.chains[first]|
    requires cluster == v.chains[first][k] && index < PerCluster(v.g)
    requires Plain(name) && |short| == 11 && target < WORD_LIMIT && size < WORD_LIMIT
    requires SlotsIn(v.g, k) + index + LfnCount(name) + 1 <= SlotsIn(v.g, |v.chains[first]|)
    modifies v`disk, v`cacheKey, v`cacheBuf
    ensures v.Valid() && DataThere(v.disk, v.g) && OthersKept(old(v.disk), v.disk, v.g, v.chains[first])
    ensures var dir, p := old(DirOf(v.disk, v.g, v.chains[first])), SlotsIn(v.g, k) + index;
            var set_ := Set(name, short, attr, target, size);
            p + |set_| <= |dir| && DirOf(v.disk, v.g, v.chains[first]) == Replace(dir, p, set_)
    ensures last < |v.chains[first]| && at.0 == v.chains[first][last]
    ensures SlotsIn(v.g, last) + at.1 == SlotsIn(v.g, k) + index + LfnCount(name)
  {
    hide Represents, CacheOk, ChainsOk, BitmapOk, DataThere, ClusterThere, Pending, OthersKept, DirOf, Replace,
      ClusterBytes, PutCluster, SlotsIn, PerCluster, Patch, LfnSlot, ShortSlot, Checksum, Segments, Plain;
    ghost var q, dir, p := v.chains[first], DirOf(v.disk, v.g, v.chains[first]), SlotsIn(v.g, k) + index;
    v.SmallTable();
    SomeSize(v.g);
    FineChain(v.fat, v.chains, first);
    DirSize(v.disk, v.g, q);
    KeptRefl(v.disk, v.g, q);
    CountFits(name);
    AsciiUnits(name);
    InChainUsed(v.fat, v.chains, first, k);
    OneThere(v.disk, v.g, cluster);
    var data := ReadCluster(v, cluster);
    StartPending(v.disk, v.g, q, k, index);
    var c := Cursor(cluster, data.value, index);
    ghost var now, done: Dir := k, [];
    var n := LfnCount(name);
    SegmentsLeft(name, Checksum(short), 0);
    for i := 0 to n
      invariant v.Valid() && DataThere(v.disk, v.g) && OthersKept(old(v.disk), v.disk, v.g, q)
      invariant |done| == i && Pending(v.disk, v.g, q, now, c, dir, p, done)
      invariant done + Segments(name, Checksum(short), i) == Segments(name, Checksum(short), 0)
    {
      ghost var disk1 := v.disk;
      var slot := LfnSlot(name, n - i, i == 0, Checksum(short));
      c, now := PlaceSlot(v, c, slot, first, now, dir, p, done);
      OthersKeptTrans(old(v.disk), disk1, v.disk, v.g, q);
      SegmentsStep(name, Checksum(short), i, done);
      done := done + [slot];
    }
    SegmentsDone(name, Checksum(short), done);
    ghost var disk1 := v.disk;
    var slot := ShortSlot(short, attr, target, size);
    c, now := PlaceSlot(v, c, slot, first, now, dir, p, done);
    OthersKeptTrans(old(v.disk), disk1, v.disk, v.g, q);
    done := done + [slot];
    SetIs(name, short, attr, target, size);
    PendingFacts(v.disk, v.g, q, now, c, dir, p, done);
    InChainUsed(v.fat, v.chains, first, now);
    ghost var disk2 := v.disk;
    Flushed(v.disk, v.g, q, now, c, dir, p, done);
    StillMounted(v.disk, v.g, c.cluster, c.buf, v.fat, v.cacheKey, v.cacheBuf);
    OneThere(v.disk, v.g, c.cluster);
    var ok := WriteCluster(v, c.cluster, c.buf);
    OthersKeptTrans(old(v.disk), disk2, v.disk, v.g, q);
    SetSize(name, short, attr, target, size);
    return (c.cluster, c.index - 1), now;
  }

  lemma AsciiUnits(name: Name)
    requires Plain(name)
    ensures forall i :: 0 <= i < |name| ==> name[i] < 0x1_0000
  {
  }

  lemma SegmentsLeft(name: Name, checksum: Byte, i: nat)
    requires Plain(name) && i <= LfnCount(name)
    ensures [] + Segments(name, checksum, i) == Segments(name, checksum, i)
  {
  }

  lemma SegmentsStep(name: Name, checksum: Byte, i: nat, done: Dir)
    requires Plain(name) && i < LfnCount(name) <= 20 && forall k :: 0 <= k < |name| ==> name[k] < 0x1_0000
    ensures (done + [LfnSlot(name, LfnCount(name) - i, i == 0, checksum)]) + Segments(name, checksum, i + 1) ==
            done + Segments(name, checksum, i)
  {
  }

  lemma SegmentsDone(name: Name, checksum: Byte, done: Dir)
    requires Plain(name) && done + Segments(name, checksum, LfnCount(name)) == Segments(name, checksum, 0)
    ensures done == Segments(name, checksum, 0)
  {
    assert done + [] == done;
  }

  lemma SetIs(name: Name, short: seq<Byte>, attr: Byte, cluster: nat, size: nat)
    requires Plain(name) && |short| == 11 && cluster < WORD_LIMIT && size < WORD_LIMIT
    ensures Set(name, short, attr, cluster, size) ==
            Segments(name, Checksum(short), 0) + [ShortSlot(short, attr, cluster, size)]
  {
  }

  // ---------------------------------------------------------------------------
  // mark_entries_deleted
  // ---------------------------------------------------------------------------

  /** Mark slots of one cluster's buffer, at most `count`, from the cursor on. */
  method EraseInCluster(g: Geometry, c: Cursor, count: nat, ghost disk: Disk, ghost q: seq<nat>, ghost k: nat,
                        ghost dir: Dir, ghost p: nat)
    returns (c': Cursor, m: nat)
    requires Pending(disk, g, q, k, c, dir, p, []) && p + count <= |dir|
    ensures m <= count && (m == count || c'.index == PerCluster(g)) && c'.index == c.index + m && p + m <= |dir|
    ensures Pending(disk, g, q, k, c', dir, p, EraseAll(dir[p..p + m]))
  {
    hide Pending, SlotsIn, PerCluster, Patch, EraseAll;
    c', m := c, 0;
    EraseNone(dir, p);
    PendingFacts(disk, g, q, k, c, dir, p, []);
    while c'.index < g.perCluster * 16 && m < count
      invariant m <= count && c'.index == c.index + m && c'.index <= PerCluster(g)
      invariant Pending(disk, g, q, k, c', dir, p, EraseAll(dir[p..p + m]))
    {
      ghost var done := EraseAll(dir[p..p + m]);
      EraseSize(dir[p..p + m]);
      var o := SLOT * c'.index;
      PutSlot(disk, g, q, k, c', dir, p, done, Erase(dir[p + m]));
      SlotBehind(disk, g, q, k, c', dir, p, done);
      EraseMore(dir, p, m);
      ErasedByte(c'.buf, o, dir[p + m]);
      c' := Cursor(c'.cluster, c'.buf[o := DELETED], c'.index + 1);
      m := m + 1;
    }
  }

  lemma EraseNone(dir: Dir, p: nat)
    requires p <= |dir|
    ensures EraseAll(dir[p..p + 0]) == []
  {
  }

  lemma EraseSize(dir: Dir)
    ensures |EraseAll(dir)| == |dir|
  {
  }

  lemma EraseMore(dir: Dir, p: nat, m: nat)
    requires p + m < |dir|
    ensures EraseAll(dir[p..p + m + 1]) == EraseAll(dir[p..p + m]) + [Erase(dir[p + m])]
  {
    var a, b := dir[p..p + m + 1], dir[p..p + m];
    assert a == b + [dir[p + m]];
    assert forall i :: 0 <= i < |a| ==> EraseAll(a)[i] == (EraseAll(b) + [Erase(dir[p + m])])[i];
  }

  /** The buffer's slot at the cursor is the directory's slot that comes next. */
  lemma SlotBehind(disk: Disk, g: Geometry, q: seq<nat>, k: nat, c: Cursor, dir: Dir, p: nat, done: Dir)
    requires Pending(disk, g, q, k, c, dir, p, done) && c.index < PerCluster(g) && p + |done| < |dir|
    ensures SLOT * c.index + SLOT <= |c.buf| && c.buf[SLOT * c.index..SLOT * c.index + SLOT] == dir[p + |done|]
  {
    hide SlotsOf, FileBytes, Begin, SlotsIn, ClusterSize, PerCluster;
    SlotsInBytes(g, k);
    var f, b, o := FileBytes(disk, g, q), Begin(g, k), SLOT * c.index;
    var x := Patch(f, b, c.buf);
    SlotBytes(x, p + |done|);
    SliceOfSlice(x, b, b + |c.buf|, o, o + SLOT);
    assert x[b..b + |c.buf|] == c.buf;
    assert Replace(dir, p, done)[p + |done|] == dir[p + |done|];
  }

  lemma ErasedByte(buf: seq<Byte>, o: nat, slot: Slot)
    requires o + SLOT <= |buf| && buf[o..o + SLOT] == slot
    ensures buf[o := DELETED] == Patch(buf, o, Erase(slot))
  {
    var x, y := buf[o := DELETED], Patch(buf, o, Erase(slot));
    forall i | 0 <= i < |buf|
      ensures x[i] == y[i]
    {
      if o <= i < o + SLOT { assert buf[i] == slot[i - o]; }
    }
  }

  /** `mark_entries_deleted`: exactly `count` slots from the start lose their first byte, wherever the
      cluster borders fall. */
  method MarkEntriesDeleted(v: Volume, start: nat, index: nat, count: nat, ghost first: nat, ghost k0: nat)
    requires v.Valid() && DataThere(v.disk, v.g) && first in v.chains && k0 < |v.chains[first]|
    requires start == v.chains[first][k0] && index < PerCluster(v.g)
    requires SlotsIn(v.g, k0) + index + count <= SlotsIn(v.g, |v.chains[first]|)
    modifies v`disk, v`cacheKey, v`cacheBuf
    ensures v.Valid() && DataThere(v.disk, v.g) && OthersKept(old(v.disk), v.disk, v.g, v.chains[first])
    ensures var dir, p := old(DirOf(v.disk, v.g, v.chains[first])), SlotsIn(v.g, k0) + index;
            p + count <= |dir| && DirOf(v.disk, v.g, v.chains[first]) == EraseRun(dir, p, count)
  {
    hide Represents, CacheOk, ChainsOk, BitmapOk, DataThere, ClusterThere, Pending, OthersKept, DirOf, Replace,
      ClusterBytes, PutCluster, SlotsIn, PerCluster, Patch, EraseRun, EraseAll;
    ghost var q, dir, p := v.chains[first], DirOf(v.disk, v.g, v.chains[first]), SlotsIn(v.g, k0) + index;
    v.SmallTable();
    SomeSize(v.g);
    FineChain(v.fat, v.chains, first);
    DirSize(v.disk, v.g, q);
    KeptRefl(v.disk, v.g, q);
    var cluster: nat, i: nat, remaining: nat := start, index, count;
    ghost var k: nat := k0;
    EraseRunNone(dir, p);
    while remaining > 0
      invariant v.Valid() && DataThere(v.disk, v.g) && OthersKept(old(v.disk), v.disk, v.g, q)
      invariant remaining <= count && k < |q| && cluster == q[k] && i <= PerCluster(v.g)
      invariant remaining > 0 ==> i < PerCluster(v.g)
      invariant p + (count - remaining) == SlotsIn(v.g, k) + i
      invariant DirOf(v.disk, v.g, q) == EraseRun(dir, p, count - remaining)
    {
      ghost var disk1, t := v.disk, count - remaining;
      ghost var dir1 := DirOf(disk1, v.g, q);
      InChainUsed(v.fat, v.chains, first, k);
      OneThere(v.disk, v.g, cluster);
      var data := ReadCluster(v, cluster);
      DirSize(v.disk, v.g, q);
      StartPending(v.disk, v.g, q, k, i);
      var c, m := EraseInCluster(v.g, Cursor(cluster, data.value, i), remaining, v.disk, q, k, dir1, p + t);
      PendingFacts(v.disk, v.g, q, k, c, dir1, p + t, EraseAll(dir1[p + t..p + t + m]));
      Flushed(v.disk, v.g, q, k, c, dir1, p + t, EraseAll(dir1[p + t..p + t + m]));
      StillMounted(v.disk, v.g, cluster, c.buf, v.fat, v.cacheKey, v.cacheBuf);
      var ok := WriteCluster(v, cluster, c.buf);
      OthersKeptTrans(old(v.disk), disk1, v.disk, v.g, q);
      EraseRunMore(dir, p, t, m);
      remaining, i := remaining - m, c.index;
      if remaining > 0 {
        MoreClusters(v.g, k, |q|, c, dir, p, dir[..t + m]);
        var e := v.ReadFatEntry(cluster);
        SlotsInStep(v.g, k);
        SomeSlots(v.g);
        cluster, i, k := e.value, 0, k + 1;
      }
    }
  }

  /** The whole round on disk: a set written over free slots that no 0x00 slot precedes, wherever the cluster
      borders fall, lists as one more entry.  Marking its slots deleted lists what stands around them, which
      is what was listed before if and only if the set did not uncover old entries. */
  method CreateListUnlink(v: Volume, first: nat, cluster: nat, index: nat, name: Name, short: seq<Byte>, attr: Byte,
                          target: nat, size: nat, ghost k: nat)
    returns (listed: seq<Listed>, restored: seq<Listed>)
    requires v.Valid() && DataThere(v.disk, v.g) && first in v.chains && k < |v.chains[first]|
    requires cluster == v.chains[first][k] && index < PerCluster(v.g)
    requires Plain(name) && ShortOk(short, attr) && target < WORD_LIMIT && size < WORD_LIMIT
    requires FreeRun(DirOf(v.disk, v.g, v.chains[first]), SlotsIn(v.g, k) + index, LfnCount(name) + 1)
    modifies v`disk, v`cacheKey, v`cacheBuf
    ensures v.Valid() && OthersKept(old(v.disk), v.disk, v.g, v.chains[first])
    ensures var dir, p := old(DirOf(v.disk, v.g, v.chains[first])), SlotsIn(v.g, k) + index;
            var m := LfnCount(name) + 1;
            && p + m <= |dir|
            && listed == List(dir[..p]) + [NewEntry(name, attr, target, size)] + List(dir[p + m..])
            && restored == List(dir[..p]) + List(dir[p + m..])
            && (restored == List(dir) <==> !Uncovers(dir, p, m))
  {
    hide Represents, CacheOk, ChainsOk, BitmapOk, DataThere, OthersKept, DirOf, Replace, SlotsIn, PerCluster, Plain,
      ShortOk, EndOf, List, EraseRun, NewEntry, Set;
    ghost var q, dir, p := v.chains[first], DirOf(v.disk, v.g, v.chains[first]), SlotsIn(v.g, k) + index;
    DirSize(v.disk, v.g, q);
    ShortLength(short, attr);
    SetSize(name, short, attr, target, size);
    var at;
    ghost var last;
    at, last := WriteLfnAnd83(v, cluster, index, name, short, attr, target, size, first, k);
    WriteThenList(dir, p, name, short, attr, target, size);
    UnlinkRestores(dir, p, name, short, attr, target, size);
    ghost var disk1 := v.disk;
    listed := ListDir(v, first);
    MarkEntriesDeleted(v, cluster, index, LfnCount(name) + 1, first, k);
    OthersKeptTrans(old(v.disk), disk1, v.disk, v.g, q);
    restored := ListDir(v, first);
  }

  lemma ShortLength(short: seq<Byte>, attr: Byte)
    requires ShortOk(short, attr)
    ensures |short| == 11
  {
  }

  lemma SomeSlots(g: Geometry)
    requires 0 < g.perCluster
    ensures 0 < PerCluster(g)
  {
  }

  lemma EraseRunNone(dir: Dir, p: nat)
    requires p <= |dir|
    ensures EraseRun(dir, p, 0) == dir
  {
  }

  lemma EraseRunMore(dir: Dir, p: nat, t: nat, m: nat)
    requires p + t + m <= |dir|
    ensures var dir1 := EraseRun(dir, p, t);
            && |dir1| == |dir|
            && Replace(dir1, p + t, EraseAll(dir1[p + t..p + t + m])) == EraseRun(dir, p, t + m)
  {
    hide EraseAll;
    var dir1 := EraseRun(dir, p, t);
    EraseSize(dir[p..p + t]);
    EraseSize(dir[p + t..p + t + m]);
    EraseSize(dir[p..p + t + m]);
    assert dir1[p + t..p + t + m] == dir[p + t..p + t + m];
    EraseJoin(dir[p..p + t], dir[p + t..p + t + m]);
    assert dir[p..p + t] + dir[p + t..p + t + m] == dir[p..p + t + m];
    var a, b, back := EraseAll(dir[p..p + t]), EraseAll(dir[p + t..p + t + m]), dir[p + t + m..];
    assert dir1[..p + t] == dir[..p] + a && dir1[p + t + m..] == back;
    assert (dir[..p] + a) + b + back == dir[..p] + (a + b) + back;
  }

  lemma EraseJoin(a: Dir, b: Dir)
    ensures EraseAll(a + b) == EraseAll(a) + EraseAll(b)
  {
    assert forall i :: 0 <= i < |a + b| ==> EraseAll(a + b)[i] == (EraseAll(a) + EraseAll(b))[i];
  }
}
