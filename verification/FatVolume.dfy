/** A mounted FAT32 volume: the table with its one-sector cache and mirrors, the bitmap of used
    clusters, and the chains.
 */
module FatVolume {
  import opened Options
  import opened FatDisk
  import opened FatChains

  /** The cached sector, keyed without the partition offset, is what the disk holds. */
  ghost predicate CacheOk(disk: Disk, g: Geometry, key: Option<nat>, buf: Sector) {
    key.Some? ==>
      && g.fatStart <= key.value < g.fatStart + g.fatSectors
      && g.start + key.value in disk && buf == disk[g.start + key.value]
  }

  /** The cached sector is right for every entry of the table that is not in `stale`. */
  ghost predicate CacheBut(g: Geometry, fat: seq<nat>, key: Option<nat>, buf: Sector, stale: set<nat>) {
    forall c :: 0 <= c < |fat| && c !in stale && key == Some(g.fatStart + c / ENTRIES) ==>
      Entry(buf, c % ENTRIES) == fat[c]
  }

  lemma CacheIsRight(disk: Disk, g: Geometry, fat: seq<nat>, key: Option<nat>, buf: Sector)
    requires Sane(g) && Represents(disk, g, fat) && CacheOk(disk, g, key, buf)
    ensures CacheBut(g, fat, key, buf, {})
  {
    hide Entry;
    forall c | 0 <= c < |fat| && key == Some(g.fatStart + c / ENTRIES)
      ensures Entry(buf, c % ENTRIES) == fat[c]
    {
      assert CopyOk(disk, g, 0, c, fat);
    }
  }

  /** A used-cluster bit per cluster: set exactly when its entry is not zero. */
  ghost predicate BitmapOk(fat: seq<nat>, bitmap: seq<bool>) {
    |bitmap| + 2 == |fat| && forall c :: 2 <= c < |fat| ==> (bitmap[c - 2] <==> fat[c] != 0)
  }

  /** The write leaves a stale cache: the partition does not start at 0, the entry's sector is cached,
      and the entry changes. */
  predicate Stales(g: Geometry, key: Option<nat>, fat: seq<nat>, c: nat, v: nat)
    requires c < |fat|
  {
    0 < g.start && key == Some(g.fatStart + c / ENTRIES) && fat[c] != v % TOP
  }

  /** Only table sectors changed. */
  ghost predicate DataKept(disk: Disk, disk': Disk, g: Geometry) {
    disk'.Keys == disk.Keys && forall s :: s in disk && !TableSector(g, s) ==> disk'[s] == disk[s]
  }

  lemma DataKeptTrans(disk: Disk, disk1: Disk, disk2: Disk, g: Geometry)
    requires DataKept(disk, disk1, g) && DataKept(disk1, disk2, g)
    ensures DataKept(disk, disk2, g)
  {
  }

  lemma ReadFirst(disk: Disk, g: Geometry, fat: seq<nat>, c: nat)
    requires Sane(g) && Represents(disk, g, fat) && c < |fat|
    ensures FatSector(g, 0, c) in disk && Entry(disk[FatSector(g, 0, c)], c % ENTRIES) == fat[c]
    ensures c / ENTRIES < g.fatSectors
  {
    assert CopyOk(disk, g, 0, c, fat);
    FatInside(g, 0, c);
  }

  /** After the write the cache is right exactly when it was not made stale. */
  lemma WriteCache(disk: Disk, g: Geometry, fat: seq<nat>, c: nat, v: nat, key: Option<nat>, buf: Sector)
    requires Sane(g) && Represents(disk, g, fat) && c < |fat| && CacheOk(disk, g, key, buf)
    ensures var key' := if key == Some(g.start + g.fatStart + c / ENTRIES) then None else key;
            CacheOk(WriteCopies(disk, g, c, v, g.numFats), g, key', buf) <==> !Stales(g, key, fat, c, v)
  {
    ReadFirst(disk, g, fat, c);
    if key.Some? {
      var s := g.start + key.value;
      FirstCopy(disk, g, c, v, g.numFats, s);
      SetEntryChanges(disk[FatSector(g, 0, c)], c % ENTRIES, v);
    }
  }

  lemma ZeroEntries(k: nat)
    requires k < ENTRIES
    ensures Entry(ZeroSector(), k) == 0
  {
  }

  /** A volume of one cluster in a partition that starts at sector 1: with the table's sector cached, marking
      cluster 2 leaves the old sector in the cache. */
  lemma StaleCache()
    ensures var g, disk := Geometry(1, 1, 1, 1, 1, 1), map[2 := ZeroSector()];
            && Sane(g) && Represents(disk, g, [0, 0, 0]) && CacheOk(disk, g, Some(1), ZeroSector())
            && !CacheOk(WriteCopies(disk, g, 2, EOF_MARK, 1), g, Some(1), ZeroSector())
  {
    var g, disk, fat := Geometry(1, 1, 1, 1, 1, 1), map[2 := ZeroSector()], [0, 0, 0];
    hide Entry, ZeroSector;
    forall f, c | 0 <= f < g.numFats && 0 <= c < |fat|
      ensures CopyOk(disk, g, f, c, fat)
    {
      ZeroEntries(c);
    }
    WriteCache(disk, g, fat, 2, EOF_MARK, Some(1), ZeroSector());
  }

  class Volume {
    const g: Geometry
    var disk: Disk
    var cacheKey: Option<nat>
    var cacheBuf: Sector
    var bitmap: seq<bool>
    ghost var fat: seq<nat>
    ghost var chains: Chains

    ghost predicate TableOk()
      reads this
    {
      Sane(g) && Represents(disk, g, fat) && CacheOk(disk, g, cacheKey, cacheBuf)
    }

    /** The table, the bitmap and the chains agree, whatever the cache holds. */
    ghost predicate Mounted()
      reads this
    {
      Sane(g) && Represents(disk, g, fat) && BitmapOk(fat, bitmap) && ChainsOk(fat, chains)
    }

    ghost predicate Valid()
      reads this
    {
      Mounted() && CacheOk(disk, g, cacheKey, cacheBuf)
    }

    lemma SmallTable()
      requires Sane(g) && Represents(disk, g, fat)
      ensures |fat| == g.Entries() && |fat| <= BAD
    {
    }

    /** Mounting: the bitmap is built from the table. */
    constructor (g: Geometry, disk: Disk, ghost fat: seq<nat>, ghost chains: Chains)
      requires Sane(g) && Represents(disk, g, fat) && ChainsOk(fat, chains)
      ensures Valid() && this.g == g && this.disk == disk && this.fat == fat && this.chains == chains
    {
      this.g, this.disk, this.fat, this.chains := g, disk, fat, chains;
      cacheKey, cacheBuf := None, ZeroSector();
      bitmap := seq(g.clusters, _ => false);
      new;
      BuildBitmap();
    }

    method BuildBitmap()
      requires TableOk() && |bitmap| == g.clusters && forall k :: 0 <= k < |bitmap| ==> !bitmap[k]
      modifies this`bitmap, this`cacheKey, this`cacheBuf
      ensures TableOk() && BitmapOk(fat, bitmap)
    {
      assert |fat| == g.Entries();
      hide Represents, CacheOk;
      for c := 0 to g.Entries()
        invariant TableOk() && |bitmap| == g.clusters && |fat| == g.Entries()
        invariant forall k :: 0 <= k < |bitmap| ==> (bitmap[k] <==> k + 2 < c && fat[k + 2] != 0)
      {
        var e := ReadFatEntry(c);
        if e.value != 0 && 2 <= c {
          bitmap := bitmap[c - 2 := true];
        }
      }
    }

    method ReadFatEntry(c: nat) returns (r: Option<nat>)
      requires TableOk() && c < |fat|
      modifies this`cacheKey, this`cacheBuf
      ensures TableOk() && r == Some(fat[c])
      ensures cacheKey == Some(g.fatStart + c / ENTRIES)
    {
      CacheIsRight(disk, g, fat, cacheKey, cacheBuf);
      r := ReadPast(c, {});
    }

    /** Reading an entry that the cache is not stale for. */
    method ReadPast(c: nat, ghost stale: set<nat>) returns (r: Option<nat>)
      requires Sane(g) && Represents(disk, g, fat) && c < |fat| && c !in stale
      requires CacheBut(g, fat, cacheKey, cacheBuf, stale)
      modifies this`cacheKey, this`cacheBuf
      ensures CacheBut(g, fat, cacheKey, cacheBuf, stale) && r == Some(fat[c])
      ensures cacheKey == Some(g.fatStart + c / ENTRIES) && Entry(cacheBuf, c % ENTRIES) == fat[c]
      ensures old(CacheOk(disk, g, cacheKey, cacheBuf)) ==> CacheOk(disk, g, cacheKey, cacheBuf)
    {
      ReadFirst(disk, g, fat, c);
      var key := g.fatStart + c / ENTRIES;
      if cacheKey != Some(key) {
        if g.start + key !in disk {
          return None;
        }
        cacheBuf := disk[g.start + key];
        cacheKey := Some(key);
        CacheIsRight(disk, g, fat, cacheKey, cacheBuf);
      }
      return Some(Word(cacheBuf, 4 * (c % ENTRIES)) % TOP);
    }

    /** Set entry `c` in every copy, stopping at the first sector that does not exist.  Every copy of an entry
        of the table exists. */
    method WriteFatEntry(c: nat, v: nat) returns (ok: bool)
      requires Sane(g) && Represents(disk, g, fat)
      modifies this`disk, this`cacheKey, this`fat
      ensures var n := Reached(old(disk), g, c, g.numFats);
              disk == WriteCopies(old(disk), g, c, v, n) && (ok <==> n == g.numFats) && (c < |old(fat)| ==> ok)
      ensures cacheKey ==
              if ok && old(cacheKey) == Some(g.start + g.fatStart + c / ENTRIES) then None else old(cacheKey)
      ensures c >= |old(fat)| ==> fat == old(fat)
      ensures c < |old(fat)| ==>
                fat == old(fat)[c := v % TOP] && Represents(disk, g, fat) && DataKept(old(disk), disk, g)
      ensures c < |old(fat)| && old(CacheOk(disk, g, cacheKey, cacheBuf)) ==>
                (CacheOk(disk, g, cacheKey, cacheBuf) <==> !Stales(g, old(cacheKey), old(fat), c, v))
    {
      hide Represents, CacheOk, Mirrored, FatSector, DataKept, Sane, SetEntry, Stales, Reached;
      SmallTable();
      if c < |fat| {
        AllReached(disk, g, fat, c, g.numFats);
      }
      for f := 0 to g.numFats
        invariant disk == WriteCopies(old(disk), g, c, v, f) && disk.Keys == old(disk).Keys
        invariant f <= Reached(old(disk), g, c, g.numFats) && fat == old(fat) && cacheKey == old(cacheKey)
      {
        ReachedAt(old(disk), g, c, f, g.numFats);
        var s := FatSector(g, f, c);
        if s !in disk {
          return false;
        }
        disk := disk[s := SetEntry(disk[s], c % ENTRIES, v)];
      }
      if c < |fat| {
        TableWritten(old(disk), disk, g, fat, c, v, cacheKey, cacheBuf);
        fat := fat[c := v % TOP];
      }
      if cacheKey == Some(g.start + g.fatStart + c / ENTRIES) {
        cacheKey := None;
      }
      return true;
    }

    /** The first cluster whose bit is clear. */
    method FindFree() returns (r: Option<nat>)
      requires BitmapOk(fat, bitmap)
      ensures r.Some? ==> 2 <= r.value < |fat| && fat[r.value] == 0 && forall c :: 2 <= c < r.value ==> fat[c] != 0
      ensures r.None? ==> forall c :: 2 <= c < |fat| ==> fat[c] != 0
    {
      for i := 0 to |bitmap|
        invariant forall c :: 2 <= c < i + 2 ==> fat[c] != 0
      {
        assert bitmap[i + 2 - 2] <==> fat[i + 2] != 0;
        if !bitmap[i] {
          return Some(2 + i);
        }
      }
      return None;
    }

    /** Cluster number `index` of a chain.  One past the end this is the end mark itself. */
    method ClusterAtIndex(first: nat, index: nat) returns (r: Option<nat>)
      requires Valid() && first in chains
      modifies this`cacheKey, this`cacheBuf
      ensures Valid()
      ensures index < |chains[first]| ==> r == Some(chains[first][index])
      ensures index == |chains[first]| ==> r.Some? && IsEof(r.value)
      ensures index > |chains[first]| ==> r.None?
    {
      ghost var q := chains[first];
      SmallTable();
      hide Represents, CacheOk, ChainsOk, BitmapOk;
      FirstOf(fat, chains, first);
      var cluster: nat := first;
      for k := 0 to index
        invariant Valid() && k <= |q|
        invariant (k < |q| ==> cluster == q[k] && cluster < |fat|) && (k == |q| ==> IsEof(cluster))
      {
        if IsEof(cluster) || cluster == BAD {
          return None;
        }
        InChainUsed(fat, chains, first, k);
        var e := ReadFatEntry(cluster);
        if e.None? {
          return None;
        }
        cluster := e.value;
      }
      return Some(cluster);
    }

    /** Follow the chain `q` to its last cluster, past entries the cache is stale for. */
    method GetLastCluster(first: nat, ghost q: seq<nat>, ghost stale: set<nat>) returns (r: Option<nat>)
      requires Sane(g) && Represents(disk, g, fat) && CacheBut(g, fat, cacheKey, cacheBuf, stale)
      requires 2 <= first ==> Chain(fat, q) && q[0] == first && forall i :: 0 <= i < |q| ==> q[i] !in stale
      modifies this`cacheKey, this`cacheBuf
      ensures r == if first < 2 then None else Some(LastOf(q))
      ensures CacheBut(g, fat, cacheKey, cacheBuf, stale)
      ensures old(CacheOk(disk, g, cacheKey, cacheBuf)) ==> CacheOk(disk, g, cacheKey, cacheBuf)
      ensures r.Some? ==>
                && r.value < |fat| && cacheKey == Some(g.fatStart + r.value / ENTRIES)
                && Entry(cacheBuf, r.value % ENTRIES) == fat[r.value]
    {
      SmallTable();
      hide Represents, CacheOk, CacheBut;
      if first < 2 {
        return None;
      }
      var cluster := first;
      ghost var k := 0;
      while true
        invariant CacheBut(g, fat, cacheKey, cacheBuf, stale) && k < |q| && cluster == q[k]
        invariant old(CacheOk(disk, g, cacheKey, cacheBuf)) ==> CacheOk(disk, g, cacheKey, cacheBuf)
        decreases |q| - k
      {
        assert Linked(fat, q, k) && (k + 1 < |q| ==> Linked(fat, q, k + 1));
        var e := ReadPast(cluster, stale);
        if IsEof(e.value) || e.value == BAD || e.value < 2 {
          return Some(cluster);
        }
        cluster := e.value;
        k := k + 1;
      }
    }

    /** Mark a free cluster used, with an end mark. */
    method Claim(c: nat)
      requires Sane(g) && Represents(disk, g, fat) && BitmapOk(fat, bitmap) && 2 <= c < |fat| && fat[c] == 0
      requires CacheOk(disk, g, cacheKey, cacheBuf)
      modifies this`bitmap, this`disk, this`cacheKey, this`fat
      ensures Represents(disk, g, fat) && BitmapOk(fat, bitmap) && fat == old(fat)[c := EOF_MARK]
      ensures DataKept(old(disk), disk, g) && CacheBut(g, fat, cacheKey, cacheBuf, {c})
      ensures CacheOk(disk, g, cacheKey, cacheBuf) <==>
              !(0 < g.start && old(cacheKey) == Some(g.fatStart + c / ENTRIES))
    {
      BitmapShape(fat, bitmap);
      CacheIsRight(disk, g, fat, cacheKey, cacheBuf);
      hide Represents, CacheOk, BitmapOk, DataKept;
      SetBit(fat, bitmap, c, EOF_MARK);
      bitmap := bitmap[c - 2 := true];
      var ok := WriteFatEntry(c, EOF_MARK);
    }

    /** Point the end of a chain, which was just read, at another cluster. */
    method Relink(c: nat, v: nat)
      requires Sane(g) && Represents(disk, g, fat) && BitmapOk(fat, bitmap) && 2 <= c < |fat| && 0 < v < TOP
      requires IsEof(fat[c]) && v < EOF_MIN
      requires cacheKey == Some(g.fatStart + c / ENTRIES) && Entry(cacheBuf, c % ENTRIES) == fat[c]
      requires g.start == 0 ==> CacheOk(disk, g, cacheKey, cacheBuf)
      modifies this`disk, this`cacheKey, this`fat
      ensures Represents(disk, g, fat) && BitmapOk(fat, bitmap) && fat == old(fat)[c := v]
      ensures DataKept(old(disk), disk, g)
      ensures CacheOk(disk, g, cacheKey, cacheBuf) <==> g.start == 0
    {
      hide Represents, CacheOk, BitmapOk, DataKept;
      KeepBit(fat, bitmap, c, v);
      var ok := WriteFatEntry(c, v);
      if 0 < g.start { StaleAfter(disk, g, fat, c, cacheBuf); }
    }

    /** Mark a cluster free that was just read. */
    method Release(c: nat)
      requires Sane(g) && Represents(disk, g, fat) && BitmapOk(fat, bitmap) && 2 <= c < |fat|
      modifies this`bitmap, this`disk, this`cacheKey, this`fat
      ensures Represents(disk, g, fat) && BitmapOk(fat, bitmap) && fat == old(fat)[c := 0]
      ensures disk == WriteCopies(old(disk), g, c, 0, g.numFats) && DataKept(old(disk), disk, g)
      ensures cacheKey == if old(cacheKey) == Some(g.start + g.fatStart + c / ENTRIES) then None else old(cacheKey)
      ensures g.start == 0 && old(CacheOk(disk, g, cacheKey, cacheBuf)) ==> CacheOk(disk, g, cacheKey, cacheBuf)
    {
      BitmapShape(fat, bitmap);
      hide Represents, CacheOk, BitmapOk, DataKept;
      ClearBit(fat, bitmap, c);
      bitmap := bitmap[c - 2 := false];
      var ok := WriteFatEntry(c, 0);
    }

    /** Free every cluster of a chain.  The loop ends at the end mark `e`, which is then written to as if it
        named a cluster.  That changes nothing if and only if the word is zero already in every copy the
        write reaches, or is the entry of a cluster just freed.  With a partition that does not start at
        sector 0 the cache is left stale. */
    method FreeChain(first: nat)
      requires Valid() && first in chains
      modifies this
      ensures var q := old(chains)[first];
              && q != [] && (forall i :: 0 <= i < |q| ==> q[i] < |old(fat)|) && chains == old(chains) - {first}
              && fat == FreeFat(old(fat), q, |q|) && BitmapOk(fat, bitmap) && ChainsOk(fat, chains)
      ensures var q := old(chains)[first];
              var freed, e := FreedDisk(old(disk), g, q, |q|), old(fat)[LastOf(q)];
              && Represents(freed, g, fat) && DataKept(old(disk), freed, g)
              && disk == WriteCopies(freed, g, e, 0, Reached(freed, g, e, g.numFats))
              && (disk == freed <==> EndHarmless(old(disk), g, q, e))
              && (disk == freed ==> Mounted() && (CacheOk(disk, g, cacheKey, cacheBuf) <==> g.start == 0))
    {
      hide Represents, CacheOk, BitmapOk, DataKept, ChainsOk, FreeFat, FreedDisk, CacheBut, EndWordsZero, WriteCopies,
        Reached, Sane, Stales, StaleFor, Entry, EndHarmless;
      SmallTable();
      ghost var q, fat0, disk0 := chains[first], fat, disk;
      FreeOk(fat0, chains, first);
      FirstOf(fat0, chains, first);
      DataKeptRefl(disk, g);
      CacheIsRight(disk, g, fat, cacheKey, cacheBuf);
      FreeNone(fat0, q);
      FreedNone(disk0, g, q);
      NoneStale(q);
      var cluster: nat := first;
      ghost var k := 0;
      while 2 <= cluster && !IsEof(cluster) && cluster != BAD
        invariant Represents(disk, g, fat) && BitmapOk(fat, bitmap) && DataKept(disk0, disk, g) && chains == old(chains)
        invariant k <= |q| && fat == FreeFat(fat0, q, k) && disk == FreedDisk(disk0, g, q, k)
        invariant CacheBut(g, fat, cacheKey, cacheBuf, Firsts(q, k))
        invariant g.start == 0 ==> CacheOk(disk, g, cacheKey, cacheBuf)
        invariant 0 < g.start && 0 < k ==> StaleFor(g, fat0, q[k - 1], cacheKey, cacheBuf)
        invariant k < |q| ==> cluster == q[k]
        invariant k == |q| ==> cluster == fat0[LastOf(q)] && IsEof(cluster) && cluster < TOP
        decreases |q| - k
      {
        InChainUsed(fat0, chains, first, k);
        Unvisited(fat0, chains, first, k);
        ghost var disk1 := disk;
        var e := ReadPast(cluster, Firsts(q, k));
        StillStale(g, fat, fat0, q, k, cacheKey, cacheBuf);
        Release(cluster);
        DataKeptTrans(disk0, disk1, disk, g);
        FreeOne(fat0, q, k);
        FreedOne(disk0, g, q, k);
        cluster := e.value;
        k := k + 1;
      }
      assert k == |q| by { if k < |q| { InChainUsed(fat0, chains, first, k); } }
      chains := chains - {first};
      FreedAll(fat0, q);
      EndMarkWrite(disk, g, cluster);
      EndBefore(disk0, g, q, cluster);
      CacheAtEnd(disk, g, fat0, fat, q, cluster, cacheKey, cacheBuf);
      if 2 <= cluster {
        var ok := WriteFatEntry(cluster, 0);
      }
    }

    /** Take a free cluster and append it to a chain, or start a new chain when `first` is 0.  With a partition
        that does not start at sector 0 the cache is left stale, unless a new chain was started whose sector
        was not the cached one. */
    method AllocCluster(first: nat) returns (r: Option<(nat, nat)>)
      requires Valid() && (first == 0 || first in chains)
      modifies this
      ensures Mounted() && DataKept(old(disk), disk, g)
      ensures r.None? <==> forall c :: 2 <= c < |old(fat)| ==> old(fat)[c] != 0
      ensures r.None? ==> Valid() && fat == old(fat) && chains == old(chains)
      ensures r.Some? ==>
                var c := r.value.0;
                && 2 <= c < |old(fat)| && old(fat)[c] == 0 && c !in old(chains)
                && r.value.1 == (if first == 0 then c else first)
                && chains == AllocChains(old(chains), first, c)
                && fat == AllocFat(old(fat), c, if first in old(chains) then LastOf(old(chains)[first]) else 0)
      ensures r.Some? ==>
                (CacheOk(disk, g, cacheKey, cacheBuf) <==>
                 g.start == 0 || (first == 0 && old(cacheKey) != Some(g.fatStart + r.value.0 / ENTRIES)))
    {
      hide Represents, CacheOk, ChainsOk, BitmapOk, InSome, Chain, CacheBut, DataKept, Sane, Entry;
      SmallTable();
      var c := FindFree();
      if c.None? {
        DataKeptRefl(disk, g);
        return None;
      }
      ghost var fat0 := fat;
      ghost var q := if first in chains then chains[first] else [];
      AllocOk(fat, chains, first, c.value);
      NoneAtZero(fat, chains);
      Claim(c.value);
      if first != 0 {
        ghost var disk1 := disk;
        StillChain(fat0, chains, first, c.value);
        var last := GetLastCluster(first, q, {c.value});
        Relink(last.value, c.value);
        DataKeptTrans(old(disk), disk1, disk, g);
      }
      chains := AllocChains(chains, first, c.value);
      return Some((c.value, if first == 0 then c.value else first));
    }
  }

  /** The chain is still one after a loose cluster got its end mark. */
  lemma StillChain(fat: seq<nat>, chains: Chains, first: nat, c: nat)
    requires ChainsOk(fat, chains) && |fat| <= BAD && first in chains && c < |fat| && fat[c] == 0
    ensures Chain(fat[c := EOF_MARK], chains[first]) && chains[first][0] == first
    ensures 2 <= LastOf(chains[first]) < |fat| && IsEof(fat[c := EOF_MARK][LastOf(chains[first])]) && 2 <= first
    ensures forall i :: 0 <= i < |chains[first]| ==> chains[first][i] !in {c}
  {
    var q := chains[first];
    forall i | 0 <= i < |q|
      ensures Linked(fat[c := EOF_MARK], q, i) && fat[q[i]] != 0
    {
      assert Linked(fat, q, i);
      InChainUsed(fat, chains, first, i);
    }
    FirstOf(fat, chains, first);
  }

  lemma MirrorOutside(disk: Disk, disk': Disk, g: Geometry, fat: seq<nat>, c: nat, v: nat)
    requires |fat| == g.Entries() && c < |fat| && Mirrored(disk, disk', g, fat, c, v, g.numFats)
    ensures DataKept(disk, disk', g)
  {
  }

  lemma FirstOf(fat: seq<nat>, chains: Chains, first: nat)
    requires ChainsOk(fat, chains) && first in chains
    ensures chains[first] != [] && chains[first][0] == first && 2 <= first < |fat|
  {
    assert Linked(fat, chains[first], 0);
  }

  lemma NoneAtZero(fat: seq<nat>, chains: Chains)
    requires ChainsOk(fat, chains)
    ensures 0 !in chains
  {
    if 0 in chains { FirstOf(fat, chains, 0); }
  }

  lemma BitmapShape(fat: seq<nat>, bitmap: seq<bool>)
    requires BitmapOk(fat, bitmap)
    ensures |bitmap| + 2 == |fat|
  {
  }

  lemma SetBit(fat: seq<nat>, bitmap: seq<bool>, c: nat, v: nat)
    requires BitmapOk(fat, bitmap) && 2 <= c < |fat| && v % TOP != 0
    ensures BitmapOk(fat[c := v % TOP], bitmap[c - 2 := true])
  {
  }

  lemma KeepBit(fat: seq<nat>, bitmap: seq<bool>, c: nat, v: nat)
    requires BitmapOk(fat, bitmap) && 2 <= c < |fat| && v % TOP != 0 && fat[c] != 0
    ensures BitmapOk(fat[c := v % TOP], bitmap)
  {
  }

  lemma DataKeptRefl(disk: Disk, g: Geometry)
    ensures DataKept(disk, disk, g)
  {
  }

  lemma ClearBit(fat: seq<nat>, bitmap: seq<bool>, c: nat)
    requires BitmapOk(fat, bitmap) && 2 <= c < |fat|
    ensures BitmapOk(fat[c := 0], bitmap[c - 2 := false])
  {
  }

  lemma FreeNone(fat: seq<nat>, q: seq<nat>)
    requires forall i :: 0 <= i < |q| ==> q[i] < |fat|
    ensures FreeFat(fat, q, 0) == fat
  {
  }

  lemma FreeOne(fat: seq<nat>, q: seq<nat>, k: nat)
    requires k < |q| && forall i :: 0 <= i < |q| ==> q[i] < |fat|
    ensures FreeFat(fat, q, k + 1) == FreeFat(fat, q, k)[q[k] := 0]
  {
  }

  /** A cluster not freed yet still names its successor. */
  lemma Unvisited(fat: seq<nat>, chains: Chains, first: nat, k: nat)
    requires ChainsOk(fat, chains) && first in chains && k < |chains[first]|
    requires forall i :: 0 <= i < |chains[first]| ==> chains[first][i] < |fat|
    ensures FreeFat(fat, chains[first], k)[chains[first][k]] == fat[chains[first][k]]
    ensures chains[first][k] !in Firsts(chains[first], k)
  {
    var q := chains[first];
    FreeFatAt(fat, q, k, q[k]);
    assert Position(chains, first, k);
    forall j | 0 <= j < k
      ensures q[j] != q[k]
    {
      assert Position(chains, first, j);
    }
  }

  lemma FreedAll(fat: seq<nat>, q: seq<nat>)
    requires forall i :: 0 <= i < |q| ==> q[i] < |fat|
    ensures forall c :: 0 <= c < |fat| ==> FreeFat(fat, q, |q|)[c] == if c in q then 0 else fat[c]
  {
    assert q[..|q|] == q;
    forall c | 0 <= c < |fat|
      ensures FreeFat(fat, q, |q|)[c] == if c in q then 0 else fat[c]
    {
      FreeFatAt(fat, q, |q|, c);
    }
  }

  /** The disk once the first `k` clusters of `q` are freed in every copy of the table. */
  function FreedDisk(disk: Disk, g: Geometry, q: seq<nat>, k: nat): Disk
    requires k <= |q|
  {
    if k == 0 then disk else WriteCopies(FreedDisk(disk, g, q, k - 1), g, q[k - 1], 0, g.numFats)
  }

  lemma FreedNone(disk: Disk, g: Geometry, q: seq<nat>)
    ensures FreedDisk(disk, g, q, 0) == disk
  {
  }

  lemma FreedOne(disk: Disk, g: Geometry, q: seq<nat>, k: nat)
    requires k < |q|
    ensures FreedDisk(disk, g, q, k + 1) == WriteCopies(FreedDisk(disk, g, q, k), g, q[k], 0, g.numFats)
  {
  }

  /** The word at index `e` is zero in every copy that a write reaches. */
  ghost predicate EndWordsZero(disk: Disk, g: Geometry, e: nat) {
    forall f :: 0 <= f < Reached(disk, g, e, g.numFats) ==> EntryAt(disk, g, f, e) == 0
  }

  /** Writing zero at the end mark changes nothing if and only if the words it reaches are zero. */
  lemma EndMarkWrite(disk: Disk, g: Geometry, e: nat)
    requires Sane(g)
    ensures WriteCopies(disk, g, e, 0, Reached(disk, g, e, g.numFats)) == disk <==> EndWordsZero(disk, g, e)
  {
    hide WriteCopies, EntryAt;
    WritesNothing(disk, g, e, 0, Reached(disk, g, e, g.numFats));
  }

  /** The word at index `e` of copy `f` is entry `c` of copy `f'`. */
  ghost predicate SameWord(g: Geometry, f: nat, e: nat, f': nat, c: nat) {
    FatSector(g, f, e) == FatSector(g, f', c) && e % ENTRIES == c % ENTRIES
  }

  /** The word is an entry of one of the first `k` clusters of `q`. */
  ghost predicate WordOf(g: Geometry, q: seq<nat>, k: nat, f: nat, e: nat)
    requires k <= |q|
  {
    exists i, f': nat :: 0 <= i < k && f' < g.numFats && SameWord(g, f, e, f', q[i])
  }

  /** What a caller can tell beforehand: each word at index `e` that the write reaches is zero, or is freed
      together with the chain. */
  ghost predicate EndHarmless(disk: Disk, g: Geometry, q: seq<nat>, e: nat) {
    forall f :: 0 <= f < Reached(disk, g, e, g.numFats) ==> EntryAt(disk, g, f, e) == 0 || WordOf(g, q, |q|, f, e)
  }

  lemma OneWord(disk: Disk, g: Geometry, c: nat, f: nat, e: nat)
    requires Sane(g) && FatSector(g, f, e) in disk
    ensures WriteCopies(disk, g, c, 0, g.numFats).Keys == disk.Keys
    ensures EntryAt(WriteCopies(disk, g, c, 0, g.numFats), g, f, e) ==
            if exists f': nat :: f' < g.numFats && SameWord(g, f, e, f', c) then 0 else EntryAt(disk, g, f, e)
  {
    hide WriteCopies, FatSector, SetEntry, Entry;
    WrittenSectors(disk, g, c, 0, g.numFats);
    if f': nat :| f' < g.numFats && FatSector(g, f, e) == FatSector(g, f', c) {
      SetEntryReads(disk[FatSector(g, f, e)], c % ENTRIES, 0, e % ENTRIES);
      assert SameWord(g, f, e, f', c) <==> e % ENTRIES == c % ENTRIES;
    }
  }

  lemma {:induction false} FreedWords(disk: Disk, g: Geometry, q: seq<nat>, k: nat, f: nat, e: nat)
    requires Sane(g) && k <= |q| && FatSector(g, f, e) in disk
    ensures FreedDisk(disk, g, q, k).Keys == disk.Keys
    ensures EntryAt(FreedDisk(disk, g, q, k), g, f, e) == if WordOf(g, q, k, f, e) then 0 else EntryAt(disk, g, f, e)
  {
    hide EntryAt, WriteCopies, SameWord, Sane;
    if k > 0 {
      FreedWords(disk, g, q, k - 1, f, e);
      OneWord(FreedDisk(disk, g, q, k - 1), g, q[k - 1], f, e);
      WordStep(g, q, k - 1, f, e);
    }
  }

  lemma WordStep(g: Geometry, q: seq<nat>, k: nat, f: nat, e: nat)
    requires k < |q|
    ensures WordOf(g, q, k + 1, f, e) <==>
            WordOf(g, q, k, f, e) || exists f': nat :: f' < g.numFats && SameWord(g, f, e, f', q[k])
  {
    hide SameWord;
    if f': nat :| f' < g.numFats && SameWord(g, f, e, f', q[k]) {
      assert 0 <= k < k + 1;
    }
  }

  lemma {:induction false} SameReached(disk: Disk, disk': Disk, g: Geometry, e: nat, n: nat)
    requires disk'.Keys == disk.Keys
    ensures Reached(disk', g, e, n) == Reached(disk, g, e, n)
  {
    hide FatSector;
    if n > 0 { SameReached(disk, disk', g, e, n - 1); }
  }

  lemma {:induction false} FreedKeys(disk: Disk, g: Geometry, q: seq<nat>, k: nat)
    requires Sane(g) && k <= |q|
    ensures FreedDisk(disk, g, q, k).Keys == disk.Keys
  {
    if k > 0 {
      FreedKeys(disk, g, q, k - 1);
      WrittenSectors(FreedDisk(disk, g, q, k - 1), g, q[k - 1], 0, g.numFats);
    }
  }

  /** The words at the end mark once the chain is gone, told from the disk before. */
  lemma EndBefore(disk: Disk, g: Geometry, q: seq<nat>, e: nat)
    requires Sane(g)
    ensures EndWordsZero(FreedDisk(disk, g, q, |q|), g, e) <==> EndHarmless(disk, g, q, e)
  {
    hide EntryAt, FreedDisk, WordOf, Sane, FatSector;
    var freed := FreedDisk(disk, g, q, |q|);
    FreedKeys(disk, g, q, |q|);
    SameReached(disk, freed, g, e, g.numFats);
    forall f | 0 <= f < Reached(disk, g, e, g.numFats)
      ensures EntryAt(freed, g, f, e) == 0 <==> EntryAt(disk, g, f, e) == 0 || WordOf(g, q, |q|, f, e)
    {
      FreedWords(disk, g, q, |q|, f, e);
    }
  }

  /** Where the end mark lies outside the copies of the table only the words on the device count. */
  lemma EndOutside(disk: Disk, g: Geometry, q: seq<nat>, e: nat)
    requires Sane(g) && g.numFats * g.fatSectors <= e / ENTRIES && forall i :: 0 <= i < |q| ==> q[i] < g.Entries()
    ensures EndHarmless(disk, g, q, e) <==> EndWordsZero(disk, g, e)
  {
    hide EntryAt;
    forall f: nat
      ensures !WordOf(g, q, |q|, f, e)
    {
      forall i, f': nat | 0 <= i < |q| && f' < g.numFats
        ensures !SameWord(g, f, e, f', q[i])
      {
        FatInside(g, f', q[i]);
        FarOut(g, f, e);
      }
    }
  }

  lemma FarOut(g: Geometry, f: nat, e: nat)
    requires g.numFats * g.fatSectors <= e / ENTRIES
    ensures g.start + g.DataStart() <= FatSector(g, f, e)
  {
    assert 0 <= f * g.fatSectors;
  }

  lemma {:induction false} AllReached(disk: Disk, g: Geometry, fat: seq<nat>, c: nat, n: nat)
    requires Represents(disk, g, fat) && c < |fat| && n <= g.numFats
    ensures Reached(disk, g, c, n) == n
  {
    if n > 0 {
      AllReached(disk, g, fat, c, n - 1);
      assert CopyOk(disk, g, n - 1, c, fat);
    }
  }

  lemma ReachedAt(disk: Disk, g: Geometry, c: nat, f: nat, n: nat)
    requires f <= Reached(disk, g, c, n) && f < n
    ensures FatSector(g, f, c) in disk <==> f < Reached(disk, g, c, n)
    ensures Reached(disk, g, c, n) <= n
  {
    hide FatSector;
  }

  /** An entry of the table written in every copy. */
  lemma TableWritten(disk: Disk, disk': Disk, g: Geometry, fat: seq<nat>, c: nat, v: nat, key: Option<nat>, buf: Sector)
    requires Sane(g) && Represents(disk, g, fat) && c < |fat| && disk' == WriteCopies(disk, g, c, v, g.numFats)
    ensures Represents(disk', g, fat[c := v % TOP]) && DataKept(disk, disk', g)
    ensures CacheOk(disk, g, key, buf) ==>
              var key' := if key == Some(g.start + g.fatStart + c / ENTRIES) then None else key;
              CacheOk(disk', g, key', buf) <==> !Stales(g, key, fat, c, v)
  {
    assert |fat| == g.Entries();
    hide Represents, CacheOk, Mirrored, FatSector, DataKept, Sane, SetEntry, Stales;
    WritesMirror(disk, g, fat, c, v, g.numFats);
    MirrorDone(disk, disk', g, fat, c, v);
    MirrorOutside(disk, disk', g, fat, c, v);
    if CacheOk(disk, g, key, buf) { WriteCache(disk, g, fat, c, v, key, buf); }
  }

  function Firsts(q: seq<nat>, k: nat): set<nat>
    requires k <= |q|
  {
    set i | 0 <= i < k :: q[i]
  }

  /** The cache holds what the table held for cluster `c` before it was freed. */
  ghost predicate StaleFor(g: Geometry, fat: seq<nat>, c: nat, key: Option<nat>, buf: Sector) {
    c < |fat| && fat[c] != 0 && key == Some(g.fatStart + c / ENTRIES) && Entry(buf, c % ENTRIES) == fat[c]
  }

  lemma NoneStale(q: seq<nat>)
    ensures Firsts(q, 0) == {}
  {
  }

  lemma StillStale(g: Geometry, fat: seq<nat>, fat0: seq<nat>, q: seq<nat>, k: nat, key: Option<nat>, buf: Sector)
    requires k < |q| && q[k] < |fat| == |fat0| && CacheBut(g, fat, key, buf, Firsts(q, k))
    requires key == Some(g.fatStart + q[k] / ENTRIES) && Entry(buf, q[k] % ENTRIES) == fat0[q[k]] != 0
    ensures CacheBut(g, fat[q[k] := 0], key, buf, Firsts(q, k + 1))
    ensures CacheBut(g, fat[q[k] := 0], None, buf, Firsts(q, k + 1))
    ensures StaleFor(g, fat0, q[k], key, buf)
  {
    hide Entry;
    assert q[k] in Firsts(q, k + 1);
    assert forall x :: x in Firsts(q, k) ==> x in Firsts(q, k + 1);
  }

  /** A cached entry that differs from the table's is not what the disk holds. */
  lemma StaleAfter(disk: Disk, g: Geometry, fat: seq<nat>, c: nat, buf: Sector)
    requires Represents(disk, g, fat) && 0 < g.numFats && c < |fat| && Entry(buf, c % ENTRIES) != fat[c]
    ensures !CacheOk(disk, g, Some(g.fatStart + c / ENTRIES), buf)
  {
    hide Entry;
    assert CopyOk(disk, g, 0, c, fat);
  }

  /** The cache behind the end mark: right if and only if the partition starts at sector 0. */
  lemma CacheAtEnd(disk: Disk, g: Geometry, fat0: seq<nat>, fat: seq<nat>, q: seq<nat>, e: nat, key: Option<nat>,
                   buf: Sector)
    requires Sane(g) && Represents(disk, g, fat) && q != [] && LastOf(q) < |fat| && fat[LastOf(q)] == 0
    requires IsEof(e) && e < TOP && (g.start == 0 ==> CacheOk(disk, g, key, buf))
    requires 0 < g.start ==> StaleFor(g, fat0, LastOf(q), key, buf)
    ensures CacheOk(disk, g, key, buf) <==> g.start == 0
    ensures 0 < g.start ==> key != Some(g.start + g.fatStart + e / ENTRIES)
    ensures CacheOk(disk, g, None, buf)
  {
    hide Entry, Represents;
    if 0 < g.start {
      StaleAfter(disk, g, fat, LastOf(q), buf);
      TableSize(disk, g, fat);
    }
  }

  lemma TableSize(disk: Disk, g: Geometry, fat: seq<nat>)
    requires Sane(g) && Represents(disk, g, fat)
    ensures |fat| <= BAD
  {
  }
}
