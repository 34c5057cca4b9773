/** Looking a name up on disk, and the place in the directory that the opened file remembers. */
module FatOpen {
  import opened Options
  import opened FatDisk
  import opened FatChains
  import opened FatVolume
  import opened FatContent
  import opened FatFiles
  import opened FatNames
  import opened FatLookup
  import opened FatDirectory
  import FatSlots

  // ---------------------------------------------------------------------------
  // lookup_in_dir
  // ---------------------------------------------------------------------------

  lemma LookSnoc(s: Search, dir: Dir, slot: Slot, at: nat, name: Name)
    ensures Look(s, dir + [slot], at, name) == LookStep(Look(s, dir, at, name), slot, at + |dir|, name)
  {
    LookConcat(s, dir, [slot], at, name);
    var s1 := Look(s, dir, at, name);
    assert [slot][1..] == [];
    assert Look(s1, [slot], at + |dir|, name) == LookStep(s1, slot, at + |dir|, name);
  }

  lemma {:induction false} KeepsStopped(s: Search, dir: Dir, at: nat, name: Name)
    requires s.stop
    ensures Look(s, dir, at, name) == s
    decreases |dir|
  {
    if dir != [] { KeepsStopped(s, dir[1..], at + 1, name); }
  }

  /** A search that is over does not go on. */
  lemma LookOver(s: Search, a: Dir, b: Dir, at: nat, name: Name)
    requires Look(s, a, at, name).stop || Look(s, a, at, name).found.Some?
    ensures Look(s, a + b, at, name) == Look(s, a, at, name)
  {
    LookConcat(s, a, b, at, name);
    var s1 := Look(s, a, at, name);
    if s1.stop { KeepsStopped(s1, b, at + |a|, name); } else { KeepsFound(s1, b, at + |a|, name); }
  }

  lemma StepFinds(s: Search, slot: Slot, at: nat, name: Name)
    requires s.found.None?
    ensures LookStep(s, slot, at, name).found.Some? ==> LookStep(s, slot, at, name).found.value.index == at
  {
    hide SameName, IsLfn, ShortName, Segment;
  }

  lemma LookNothing(s: Search, dir: Dir, at: nat, name: Name)
    ensures Look(s, dir[..0], at, name) == s
  {
  }

  /** The loop over the slots of one cluster, the first of which is slot `at` of the directory. */
  method LookCluster(data: seq<Byte>, s: Search, at: nat, name: Name) returns (r: Search, i: nat)
    requires !s.stop && s.found.None?
    ensures r == Look(s, SlotsOf(data), at, name)
    ensures r.found.Some? ==> i < |SlotsOf(data)| && r.found.value.index == at + i
  {
    hide SlotsOf, Look, LookStep;
    ghost var dir := SlotsOf(data);
    var n := |data| / SLOT;
    r, i := s, 0;
    LookNothing(s, dir, at, name);
    while i < n
      invariant i <= n == |dir| && r == Look(s, dir[..i], at, name) && !r.stop && r.found.None?
    {
      SlotBytes(data, i);
      LookSnoc(s, dir[..i], dir[i], at, name);
      StepFinds(r, dir[i], at + i, name);
      assert dir[..i + 1] == dir[..i] + [dir[i]];
      r := LookStep(r, data[SLOT * i..SLOT * i + SLOT], at + i, name);
      if r.stop || r.found.Some? {
        LookOver(s, dir[..i + 1], dir[i + 1..], at, name);
        assert dir[..i + 1] + dir[i + 1..] == dir;
        return;
      }
      i := i + 1;
    }
    assert dir[..n] == dir;
  }

  /** The entry found, with the cluster it is in and its index there. */
  datatype DirEntry = DirEntry(slot: Slot, cluster: nat, index: nat)

  /** Index `index` of cluster `cluster` is slot `at` of the directory in `q`. */
  ghost predicate IsPlace(g: Geometry, q: seq<nat>, cluster: nat, index: nat, at: nat) {
    index < PerCluster(g) && exists k :: 0 <= k < |q| && q[k] == cluster && at == SlotsIn(g, k) + index
  }

  lemma NothingLooked(disk: Disk, g: Geometry, q: seq<nat>, name: Name)
    ensures Look(BEGIN, DirOf(disk, g, q[..0]), 0, name) == BEGIN && SlotsIn(g, 0) == 0
  {
    assert q[..0] == [];
    SlotsInStep(g, 0);
  }

  lemma LookedEnough(disk: Disk, g: Geometry, q: seq<nat>, k: nat, name: Name)
    requires k <= |q|
    requires var s := Look(BEGIN, DirOf(disk, g, q[..k]), 0, name); s.stop || s.found.Some?
    ensures Lookup(DirOf(disk, g, q), name) == Look(BEGIN, DirOf(disk, g, q[..k]), 0, name).found
  {
    hide DirOf, Look;
    DirSplit(disk, g, q, k);
    LookOver(BEGIN, DirOf(disk, g, q[..k]), DirOf(disk, g, q[k..]), 0, name);
  }

  /** Slot `i` of cluster `k` is slot `SlotsIn(k) + i` of the directory. */
  lemma FoundAt(disk: Disk, g: Geometry, q: seq<nat>, k: nat, i: nat)
    requires k < |q| && i < |SlotsOf(ClusterBytes(disk, g, q[k]))|
    ensures SlotsIn(g, k) + i < |DirOf(disk, g, q)|
    ensures DirOf(disk, g, q)[SlotsIn(g, k) + i] == SlotsOf(ClusterBytes(disk, g, q[k]))[i]
    ensures IsPlace(g, q, q[k], i, SlotsIn(g, k) + i)
  {
    hide DirOf, SlotsOf, ClusterBytes, SlotsIn, PerCluster;
    DirSplit(disk, g, q, k + 1);
    DirSnoc(disk, g, q, k);
    DirSize(disk, g, q[..k]);
  }

  /** `lookup_in_dir` across all clusters of the directory. */
  method LookupInDir(v: Volume, first: nat, name: Name) returns (r: Option<DirEntry>)
    requires v.Valid() && DataThere(v.disk, v.g) && first in v.chains
    modifies v`cacheKey, v`cacheBuf
    ensures v.Valid()
    ensures var dir := DirOf(v.disk, v.g, v.chains[first]);
            var found := Lookup(dir, name);
            && (r.Some? <==> found.Some?)
            && (r.Some? ==>
                  && found.value.index < |dir| && r.value.slot == dir[found.value.index]
                  && IsPlace(v.g, v.chains[first], r.value.cluster, r.value.index, found.value.index))
  {
    hide Represents, CacheOk, ChainsOk, BitmapOk, DataThere, Look, SlotsOf, ClusterBytes, DirOf, ClusterThere, SlotsIn,
      PerCluster, IsPlace;
    ghost var q := v.chains[first];
    ghost var dir := DirOf(v.disk, v.g, q);
    v.SmallTable();
    FirstOf(v.fat, v.chains, first);
    var cluster: nat := first;
    var s, at := BEGIN, 0;
    ghost var k := 0;
    NothingLooked(v.disk, v.g, q, name);
    while !IsEof(cluster) && cluster != BAD
      invariant v.Valid() && k <= |q| && !s.stop && s.found.None? && at == SlotsIn(v.g, k)
      invariant s == Look(BEGIN, DirOf(v.disk, v.g, q[..k]), 0, name)
      invariant k < |q| ==> cluster == q[k]
      invariant k == |q| ==> IsEof(cluster)
      decreases |q| - k
    {
      InChainUsed(v.fat, v.chains, first, k);
      OneThere(v.disk, v.g, cluster);
      var data := ReadCluster(v, cluster);
      if data.None? {
        break;
      }
      DirSnoc(v.disk, v.g, q, k);
      DirSize(v.disk, v.g, q[..k]);
      LookConcat(BEGIN, DirOf(v.disk, v.g, q[..k]), SlotsOf(data.value), 0, name);
      var i;
      s, i := LookCluster(data.value, s, at, name);
      if s.stop || s.found.Some? {
        LookedEnough(v.disk, v.g, q, k + 1, name);
        if s.found.Some? {
          SlotBytes(data.value, i);
          FoundAt(v.disk, v.g, q, k, i);
          return Some(DirEntry(data.value[SLOT * i..SLOT * i + SLOT], cluster, i));
        }
        return None;
      }
      SlotsInStep(v.g, k);
      PerClusterIs(v.g);
      at := at + v.g.perCluster * 16;
      var e := v.ReadFatEntry(cluster);
      if e.None? {
        break;
      }
      cluster := e.value;
      k := k + 1;
    }
    assert k == |q| by { if k < |q| { InChainUsed(v.fat, v.chains, first, k); } }
    assert q[..k] == q;
    return None;
  }

  // ---------------------------------------------------------------------------
  // Opening
  // ---------------------------------------------------------------------------

  /** What an open file remembers: its clusters, its size, and where its directory entry is. */
  datatype Node = Folder(first: nat) | File(first: nat, size: nat, dir: nat, index: nat)

  predicate IsFolder(slot: Slot) {
    slot[11] / 0x10 % 2 == 1
  }

  lemma FirstPlace(v: Volume, first: nat, e: DirEntry, at: nat)
    requires v.Valid() && first in v.chains && IsPlace(v.g, v.chains[first], e.cluster, e.index, at)
    ensures IsPlace(v.g, v.chains[first], first, e.index, at) <==> at < PerCluster(v.g)
  {
    hide Represents, CacheOk, ChainsOk, BitmapOk, PerCluster;
    var q, g := v.chains[first], v.g;
    FirstOf(v.fat, v.chains, first);
    ChainShape(v.fat, v.chains, first);
    var k :| 0 <= k < |q| && q[k] == e.cluster && at == SlotsIn(g, k) + e.index;
    SlotsInStep(g, 0);
    if k > 0 {
      Multiples(0, k, PerCluster(g));
    }
    if at < PerCluster(g) {
      assert q[0] == first && at == SlotsIn(g, 0) + e.index;
    }
  }

  /** `Fat32DirInode::lookup`: the file remembers the first cluster of the directory with the index inside the
      cluster where the entry was found.  That is the entry's place if and only if it is in the first cluster. */
  method Open(v: Volume, first: nat, name: Name) returns (r: Option<Node>)
    requires v.Valid() && DataThere(v.disk, v.g) && first in v.chains
    modifies v`cacheKey, v`cacheBuf
    ensures v.Valid()
    ensures var dir := DirOf(v.disk, v.g, v.chains[first]);
            var found := Lookup(dir, name);
            && (r.Some? <==> found.Some?)
            && (r.Some? ==> found.value.index < |dir| && (r.value.Folder? <==> IsFolder(dir[found.value.index])))
            && (r.Some? ==> r.value.first == ClusterOf(dir[found.value.index]))
            && (r.Some? && r.value.File? ==>
                  && r.value.size == Word(dir[found.value.index], 28) && r.value.dir == first
                  && (IsPlace(v.g, v.chains[first], r.value.dir, r.value.index, found.value.index) <==>
                      found.value.index < PerCluster(v.g)))
  {
    hide Represents, CacheOk, ChainsOk, BitmapOk, DataThere, DirOf, Lookup, PerCluster, ClusterOf, Word, IsFolder,
      IsPlace;
    var e := LookupInDir(v, first, name);
    if e.None? {
      return None;
    }
    if IsFolder(e.value.slot) {
      return Some(Folder(ClusterOf(e.value.slot)));
    }
    FirstPlace(v, first, e.value, Lookup(DirOf(v.disk, v.g, v.chains[first]), name).value.index);
    return Some(File(ClusterOf(e.value.slot), Word(e.value.slot, 28), first, e.value.index));
  }

  /** `create` of a file that exists: the cluster where the entry was found, so always its place. */
  method Reopen(v: Volume, first: nat, name: Name) returns (r: Option<Node>)
    requires v.Valid() && DataThere(v.disk, v.g) && first in v.chains
    modifies v`cacheKey, v`cacheBuf
    ensures v.Valid()
    ensures var dir := DirOf(v.disk, v.g, v.chains[first]);
            var found := Lookup(dir, name);
            && (r.Some? <==> found.Some? && found.value.index < |dir| && !IsFolder(dir[found.value.index]))
            && (r.Some? ==>
                  && r.value.File? && r.value.first == ClusterOf(dir[found.value.index])
                  && r.value.size == Word(dir[found.value.index], 28)
                  && IsPlace(v.g, v.chains[first], r.value.dir, r.value.index, found.value.index))
  {
    hide Represents, CacheOk, ChainsOk, BitmapOk, DataThere, DirOf, Lookup, PerCluster, ClusterOf, Word, IsFolder,
      IsPlace;
    var e := LookupInDir(v, first, name);
    if e.None? || IsFolder(e.value.slot) {
      return None;
    }
    return Some(File(ClusterOf(e.value.slot), Word(e.value.slot, 28), e.value.cluster, e.value.index));
  }

  /** An entry behind the first cluster keeps its bytes when the entry is updated through the first cluster. */
  lemma EntryMissed(disk: Disk, disk': Disk, g: Geometry, q: seq<nat>, at: nat)
    requires q != [] && (forall i, j :: 0 <= i < j < |q| ==> q[i] != q[j]) && forall i :: 0 <= i < |q| ==> 2 <= q[i]
    requires OthersKept(disk, disk', g, [q[0]]) && PerCluster(g) <= at < SlotsIn(g, |q|)
    ensures at < |DirOf(disk, g, q)| == |DirOf(disk', g, q)|
    ensures DirOf(disk', g, q)[at] == DirOf(disk, g, q)[at]
  {
    hide SlotsOf, FileBytes, OthersKept, PerCluster, SlotsIn;
    DirSize(disk, g, q);
    DirSize(disk', g, q);
    DirSplit(disk, g, q, 1);
    DirSplit(disk', g, q, 1);
    DirSize(disk, g, q[..1]);
    DirSize(disk', g, q[..1]);
    SlotsInStep(g, 0);
    OtherFileKept(disk, disk', g, [q[0]], q[1..]);
  }

  lemma {:induction false} Passes(dir: Dir, other: Slot, name: Name)
    requires !FatSlots.Reusable(other) && !IsLfn(other) && !SameName(ShortName(other), name)
    requires forall i :: 0 <= i < |dir| ==> dir[i] == other
    ensures Look(BEGIN, dir, 0, name) == BEGIN
    decreases |dir|
  {
    hide ShortName, SameName, IsLfn, Look;
    var n := |dir| - 1;
    if dir == [] {
      LookNothing(BEGIN, dir, 0, name);
      assert dir[..0] == dir;
    } else {
      Passes(dir[..n], other, name);
      LookSnoc(BEGIN, dir[..n], other, 0, name);
      assert dir == dir[..n] + [other];
    }
  }

  lemma SecondPlace(g: Geometry, a: nat, b: nat)
    requires g.perCluster == 1 && a != b
    ensures SlotsIn(g, 2) == 32 && IsPlace(g, [a, b], b, 0, 16)
    ensures !IsPlace(g, [a, b], a, 0, 16) && IsPlace(g, [a, b], a, 0, 0)
  {
    PerClusterIs(g);
    SlotsInStep(g, 0);
    SlotsInStep(g, 1);
    var q := [a, b];
    assert q[1] == b && 16 == SlotsIn(g, 1) + 0;
    assert q[0] == a && 0 == SlotsIn(g, 0) + 0;
    assert forall k :: 0 <= k < |q| && q[k] == a ==> k == 0;
  }

  /** A directory of two one-sector clusters `a` and `b`, the first full of other names: the entry is slot 16,
      index 0 of `b`.  The file opened by lookup remembers index 0 of `a`, which is slot 0, another file's. */
  lemma SecondCluster(g: Geometry, a: nat, b: nat, other: Slot, mine: Slot, name: Name)
    requires g.perCluster == 1 && a != b
    requires !FatSlots.Reusable(other) && !IsLfn(other) && !SameName(ShortName(other), name)
    requires !FatSlots.Reusable(mine) && !IsLfn(mine) && SameName(ShortName(mine), name)
    ensures var dir := seq(16, _ => other) + [mine] + FatSlots.ZeroSlots(15);
            |dir| == SlotsIn(g, 2) && Lookup(dir, name) == Some(Found(16, 0, 0))
    ensures IsPlace(g, [a, b], b, 0, 16)
    ensures !IsPlace(g, [a, b], a, 0, 16) && IsPlace(g, [a, b], a, 0, 0)
  {
    hide ShortName, SameName, IsLfn;
    var front, back := seq(16, _ => other), FatSlots.ZeroSlots(15);
    Passes(front, other, name);
    LookSnoc(BEGIN, front, mine, 0, name);
    LookOver(BEGIN, front + [mine], back, 0, name);
    SecondPlace(g, a, b);
  }
}
