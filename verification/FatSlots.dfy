/** Choosing the slots for a new directory entry, and when the entry written there can be seen. */
module FatSlots {
  import opened Options
  import opened FatDisk
  import opened FatChains
  import opened FatVolume
  import opened FatContent
  import opened FatFiles
  import opened FatNames
  import opened FatDirectory

  // ---------------------------------------------------------------------------
  // The search inside one cluster
  // ---------------------------------------------------------------------------

  predicate Reusable(slot: Slot) {
    slot[0] == 0 || slot[0] == DELETED
  }

  /** The scan at slot `i` of a cluster, with a run of deleted slots from `start` on.  At a 0x00 slot it
      takes everything to the end of the cluster for free, and gives the cluster up when that is too little. */
  function ScanRun(c: Dir, i: nat, start: nat, count: nat): Option<nat>
    requires start <= i <= |c|
    decreases |c| - i
  {
    if i == |c| then None
    else if !Reusable(c[i]) then ScanRun(c, i + 1, i + 1, count)
    else if i + 1 - start >= count then Some(start)
    else if c[i][0] == 0 then if |c| - start >= count then Some(start) else None
    else ScanRun(c, i + 1, start, count)
  }

  /** No free run of `count` slots starts before `n`. */
  ghost predicate NoRunBefore(c: Dir, n: nat, count: nat) {
    forall a: nat :: a < n ==> !FreeRun(c, a, count)
  }

  /** The slots from `start` to `i` are deleted, too few, and nothing was found before them. */
  ghost predicate Running(c: Dir, i: nat, start: nat, count: nat) {
    && start <= i <= EndOf(c) && i - start < count && NoRunBefore(c, start, count)
    && forall j :: start <= j < i ==> c[j][0] == DELETED
  }

  /** The scan finds the first free run of the cluster, and finds none only when there is none. */
  lemma {:induction false} ScanRunFinds(c: Dir, i: nat, start: nat, count: nat)
    requires Running(c, i, start, count)
    ensures var r := ScanRun(c, i, start, count);
            && (r.Some? ==> FreeRun(c, r.value, count) && NoRunBefore(c, r.value, count))
            && (r.None? ==> NoRunBefore(c, |c| + 1, count))
    decreases |c| - i
  {
    hide EndOf;
    if i < |c| && !Reusable(c[i]) {
      forall a: nat | a < i + 1
        ensures !FreeRun(c, a, count)
      {
        assert start <= a ==> a <= i < a + count;
      }
      ScanRunFinds(c, i + 1, i + 1, count);
    } else if i < |c| && i + 1 - start < count && c[i][0] != 0 {
      ScanRunFinds(c, i + 1, start, count);
    } else if i < |c| && i + 1 - start < count {
      assert EndOf(c) == i;
    }
  }

  // ---------------------------------------------------------------------------
  // The search through the directory
  // ---------------------------------------------------------------------------

  /** Cluster by cluster, `per` slots each. */
  function FindRun(dir: Dir, per: nat, count: nat): Option<nat>
    requires 0 < per
    decreases |dir|
  {
    if |dir| < per then None
    else match ScanRun(dir[..per], 0, 0, count)
      case Some(a) => Some(a)
      case None =>
        match FindRun(dir[per..], per, count)
        case None => None
        case Some(a) => Some(per + a)
  }

  /** Where the entry goes: the run found, or new clusters behind the directory. */
  function Chosen(dir: Dir, per: nat, count: nat): nat
    requires 0 < per
  {
    match FindRun(dir, per, count) case Some(p) => p case None => |dir|
  }

  /** Some `count` slots inside one cluster start at or before the first 0x00 slot and are deleted before it. */
  ghost predicate Fits(dir: Dir, per: nat, count: nat)
    requires 0 < per
  {
    exists a: nat :: FitsAt(dir, per, count, a)
  }

  ghost predicate FitsAt(dir: Dir, per: nat, count: nat, a: nat)
    requires 0 < per
  {
    FreeRun(dir, a, count) && a % per + count <= per
  }

  lemma EndSplit(dir: Dir, per: nat)
    requires per <= |dir|
    ensures EndOf(dir) == if EndOf(dir[..per]) < per then EndOf(dir[..per]) else per + EndOf(dir[per..])
  {
    hide EndOf;
    var a, b, z := EndOf(dir[..per]), EndOf(dir[per..]), EndOf(dir);
    assert forall i :: 0 <= i < per ==> dir[..per][i] == dir[i];
    assert forall i :: per <= i < |dir| ==> dir[per..][i - per] == dir[i];
    assert z < |dir| ==> dir[z] == if z < per then dir[..per][z] else dir[per..][z - per];
    assert b < |dir| - per ==> dir[per..][b] == dir[per + b];
  }

  /** A free run inside the first cluster, and one behind it. */
  lemma FreeRunSplit(dir: Dir, per: nat, count: nat, a: nat)
    requires per <= |dir|
    ensures a + count <= per ==> (FreeRun(dir, a, count) <==> FreeRun(dir[..per], a, count))
    ensures per <= a ==> (FreeRun(dir, a, count) <==> EndOf(dir[..per]) == per && FreeRun(dir[per..], a - per, count))
  {
    EndSplit(dir, per);
    hide EndOf;
    assert forall i :: 0 <= i < per ==> dir[..per][i] == dir[i];
    assert forall i :: 0 <= i < |dir| - per ==> dir[per..][i] == dir[per + i];
    if per <= a && EndOf(dir[..per]) == per && FreeRun(dir[per..], a - per, count) {
      forall i | a <= i < a + count && i < EndOf(dir)
        ensures dir[i][0] == DELETED
      {
        assert dir[per..][i - per] == dir[i];
      }
    }
  }

  lemma Remainder(x: nat, d: nat, k: nat, r: nat)
    requires r < d && x == k * d + r
    ensures x % d == r
  {
    var j, q := x / d, x % d;
    assert x == j * d + q;
    if j < k { Multiples(j, k, d); } else if k < j { Multiples(k, j, d); }
  }

  lemma NextCluster(a: nat, per: nat)
    requires 0 < per <= a
    ensures (a - per) % per == a % per
  {
    var k, r := (a - per) / per, (a - per) % per;
    assert (k + 1) * per == k * per + per;
    Remainder(a, per, k + 1, r);
  }

  lemma FirstCluster(a: nat, per: nat)
    requires a < per
    ensures a % per == a
  {
  }

  /** What fits in the rest, behind a full first cluster, fits; and the other way round. */
  lemma FitsSplit(dir: Dir, per: nat, count: nat)
    requires 0 < per <= |dir| && 0 < count
    ensures Fits(dir, per, count) <==>
            || (exists a: nat :: a + count <= per && FreeRun(dir[..per], a, count))
            || (EndOf(dir[..per]) == per && Fits(dir[per..], per, count))
  {
    hide EndOf, FreeRun;
    if Fits(dir, per, count) {
      var a: nat :| FitsAt(dir, per, count, a);
      FreeRunSplit(dir, per, count, a);
      if per <= a {
        NextCluster(a, per);
        assert FitsAt(dir[per..], per, count, a - per);
      } else {
        FirstCluster(a, per);
      }
    }
    if a: nat :| a + count <= per && FreeRun(dir[..per], a, count) {
      FreeRunSplit(dir, per, count, a);
      FirstCluster(a, per);
      assert FitsAt(dir, per, count, a);
    }
    if EndOf(dir[..per]) == per && Fits(dir[per..], per, count) {
      var a: nat :| FitsAt(dir[per..], per, count, a);
      FreeRunSplit(dir, per, count, a + per);
      NextCluster(a + per, per);
      assert FitsAt(dir, per, count, a + per);
    }
  }

  /** The chosen slots start at or before the first 0x00 slot if and only if there is no such slot, or some
      run fits there; and then they are a free run. */
  lemma {:induction false} ChosenInSight(dir: Dir, per: nat, count: nat)
    requires 0 < per && 0 < count && |dir| % per == 0
    ensures Chosen(dir, per, count) <= EndOf(dir) <==> EndOf(dir) == |dir| || Fits(dir, per, count)
    ensures FindRun(dir, per, count).Some? ==> Chosen(dir, per, count) + count <= |dir|
    ensures FindRun(dir, per, count).Some? && Chosen(dir, per, count) <= EndOf(dir) ==>
              FreeRun(dir, Chosen(dir, per, count), count)
    decreases |dir|
  {
    hide EndOf, ScanRun;
    if |dir| < per {
      assert dir == [] by { if 0 < |dir| { FirstCluster(|dir|, per); } }
      assert !Fits(dir, per, count);
    } else {
      var c, rest := dir[..per], dir[per..];
      NextCluster(|dir|, per);
      ChosenInSight(rest, per, count);
      EndSplit(dir, per);
      FitsSplit(dir, per, count);
      ScanRunFinds(c, 0, 0, count);
      match ScanRun(c, 0, 0, count)
      case Some(a) =>
        FreeRunSplit(dir, per, count, a);
      case None =>
        assert forall a: nat :: a + count <= per ==> a < |c| + 1 && !FreeRun(c, a, count);
        if FindRun(rest, per, count).Some? { FreeRunSplit(dir, per, count, per + FindRun(rest, per, count).value); }
    }
  }

  // ---------------------------------------------------------------------------
  // The search on disk
  // ---------------------------------------------------------------------------

  /** The loop over the slots of one cluster. */
  method FindInCluster(data: seq<Byte>, count: nat) returns (r: Option<nat>)
    requires 0 < count
    ensures r == ScanRun(SlotsOf(data), 0, 0, count)
  {
    hide SlotsOf;
    ghost var c := SlotsOf(data);
    var n := |data| / SLOT;
    var start, length := 0, 0;
    for i := 0 to n
      invariant length <= i && length < count && (0 < length ==> start == i - length)
      invariant ScanRun(c, 0, 0, count) == ScanRun(c, i, i - length, count)
    {
      SlotBytes(data, i);
      var fb := data[SLOT * i];
      if fb == 0 || fb == DELETED {
        if length == 0 {
          start := i;
        }
        length := length + 1;
        if length >= count {
          return Some(start);
        }
        if fb == 0 {
          if n - start >= count {
            return Some(start);
          }
          return None;
        }
      } else {
        length := 0;
      }
    }
    return None;
  }

  function Moved(n: nat, r: Option<nat>): Option<nat> {
    match r case None => None case Some(a) => Some(n + a)
  }

  /** The search from cluster `k` of the chain on. */
  lemma FindFrom(disk: Disk, g: Geometry, q: seq<nat>, k: nat, count: nat)
    requires k < |q| && 0 < PerCluster(g)
    ensures var c := SlotsOf(ClusterBytes(disk, g, q[k]));
            && |c| == PerCluster(g)
            && FindRun(DirOf(disk, g, q[k..]), PerCluster(g), count) ==
               (match ScanRun(c, 0, 0, count)
                case Some(a) => Some(a)
                case None => Moved(PerCluster(g), FindRun(DirOf(disk, g, q[k + 1..]), PerCluster(g), count)))
  {
    hide DirOf, SlotsOf, ClusterBytes, ScanRun;
    var c := SlotsOf(ClusterBytes(disk, g, q[k]));
    var rest := DirOf(disk, g, q[k + 1..]);
    DirSplit(disk, g, q[k..], 1);
    DirSnoc(disk, g, q[k..], 0);
    NoDir(disk, g);
    assert q[k..][..0] == [] && q[k..][1..] == q[k + 1..];
    assert DirOf(disk, g, q[k..]) == c + rest;
    assert (c + rest)[..PerCluster(g)] == c && (c + rest)[PerCluster(g)..] == rest;
  }

  lemma NothingFound(disk: Disk, g: Geometry, q: seq<nat>, count: nat)
    requires 0 < PerCluster(g)
    ensures FindRun(DirOf(disk, g, q[|q|..]), PerCluster(g), count) == None && q[0..] == q
  {
    assert q[|q|..] == [];
    NoDir(disk, g);
  }

  lemma MovedTwice(a: nat, b: nat, r: Option<nat>)
    ensures Moved(a, Moved(b, r)) == Moved(a + b, r)
  {
  }

  /** The walk through the existing clusters: the run found, or that there is none. */
  method FindExisting(v: Volume, first: nat, count: nat) returns (r: Option<(nat, nat)>, ghost k: nat)
    requires v.Valid() && DataThere(v.disk, v.g) && first in v.chains && 0 < count
    modifies v`cacheKey, v`cacheBuf
    ensures v.Valid() && 0 < PerCluster(v.g)
    ensures var found := FindRun(DirOf(v.disk, v.g, v.chains[first]), PerCluster(v.g), count);
            && (r.None? <==> found.None?)
            && (r.Some? ==>
                  && k < |v.chains[first]| && r.value.0 == v.chains[first][k] && r.value.1 < PerCluster(v.g)
                  && found == Some(SlotsIn(v.g, k) + r.value.1))
  {
    hide Represents, CacheOk, ChainsOk, BitmapOk, DataThere, DirOf, SlotsOf, ClusterBytes, ScanRun, FindRun, SlotsIn,
      PerCluster;
    ghost var q := v.chains[first];
    v.SmallTable();
    SomeSlots(v.g);
    FirstOf(v.fat, v.chains, first);
    NothingFound(v.disk, v.g, q, count);
    SlotsInStep(v.g, 0);
    MovedNot(FindRun(DirOf(v.disk, v.g, q), PerCluster(v.g), count));
    var cluster: nat := first;
    k := 0;
    while !IsEof(cluster) && cluster != BAD
      invariant v.Valid() && k <= |q| && (k < |q| ==> cluster == q[k]) && (k == |q| ==> IsEof(cluster))
      invariant FindRun(DirOf(v.disk, v.g, q), PerCluster(v.g), count) ==
                Moved(SlotsIn(v.g, k), FindRun(DirOf(v.disk, v.g, q[k..]), PerCluster(v.g), count))
      decreases |q| - k
    {
      InChainUsed(v.fat, v.chains, first, k);
      OneThere(v.disk, v.g, cluster);
      var data := ReadCluster(v, cluster);
      FindFrom(v.disk, v.g, q, k, count);
      var i := FindInCluster(data.value, count);
      if i.Some? {
        ScanInside(SlotsOf(data.value), count);
        return Some((cluster, i.value)), k;
      }
      SlotsInStep(v.g, k);
      MovedTwice(SlotsIn(v.g, k), PerCluster(v.g), FindRun(DirOf(v.disk, v.g, q[k + 1..]), PerCluster(v.g), count));
      var e := v.ReadFatEntry(cluster);
      cluster := e.value;
      k := k + 1;
    }
    assert k == |q| by { if k < |q| { InChainUsed(v.fat, v.chains, first, k); } }
    return None, k;
  }

  lemma MovedNot(r: Option<nat>)
    ensures Moved(0, r) == r
  {
  }

  lemma {:induction false} ScanBounds(c: Dir, i: nat, start: nat, count: nat)
    requires start <= i <= |c|
    ensures ScanRun(c, i, start, count).Some? ==> ScanRun(c, i, start, count).value < |c|
    decreases |c| - i
  {
    if i < |c| {
      if !Reusable(c[i]) { ScanBounds(c, i + 1, i + 1, count); } else { ScanBounds(c, i + 1, start, count); }
    }
  }

  lemma ScanInside(c: Dir, count: nat)
    ensures ScanRun(c, 0, 0, count).Some? ==> ScanRun(c, 0, 0, count).value < |c|
  {
    ScanBounds(c, 0, 0, count);
  }

  // ---------------------------------------------------------------------------
  // New clusters behind the directory
  // ---------------------------------------------------------------------------

  function ZeroBytes(n: nat): seq<Byte> {
    seq(n, _ => 0)
  }

  function ZeroSlots(n: nat): Dir {
    seq(n, _ => ZeroBytes(SLOT))
  }

  lemma {:induction false} ZeroCut(n: nat)
    ensures SlotsOf(ZeroBytes(SLOT * n)) == ZeroSlots(n)
  {
    if n > 0 {
      ZeroCut(n - 1);
      assert ZeroBytes(SLOT * n)[..SLOT] == ZeroBytes(SLOT);
      assert ZeroBytes(SLOT * n)[SLOT..] == ZeroBytes(SLOT * (n - 1));
      assert ZeroSlots(n) == [ZeroBytes(SLOT)] + ZeroSlots(n - 1);
    }
  }

  lemma ZeroJoin(a: nat, b: nat)
    ensures ZeroSlots(a) + ZeroSlots(b) == ZeroSlots(a + b)
  {
  }

  /** Writing the table changes no cluster. */
  lemma TableWriteKeeps(disk: Disk, disk': Disk, g: Geometry, c: nat)
    requires DataKept(disk, disk', g) && 2 <= c
    ensures ClusterBytes(disk', g, c) == ClusterBytes(disk, g, c)
  {
    SectorOfCluster(g, c, 0);
    SpanSame(disk, disk', DataSector(g, c, 0), g.perCluster);
  }

  lemma {:induction false} TableWriteFile(disk: Disk, disk': Disk, g: Geometry, q: seq<nat>)
    requires DataKept(disk, disk', g) && forall i :: 0 <= i < |q| ==> 2 <= q[i]
    ensures FileBytes(disk', g, q) == FileBytes(disk, g, q)
  {
    hide DataKept, ClusterBytes;
    if q != [] {
      TableWriteFile(disk, disk', g, q[..|q| - 1]);
      TableWriteKeeps(disk, disk', g, q[|q| - 1]);
    }
  }

  /** A free cluster linked behind the chain and zeroed adds unused slots to the directory. */
  lemma Appended(disk: Disk, disk1: Disk, g: Geometry, q: seq<nat>, c: nat)
    requires DataKept(disk, disk1, g) && 0 < g.perCluster && 2 <= c && c !in q && forall i :: 0 <= i < |q| ==> 2 <= q[i]
    ensures |ZeroBytes(ClusterSize(g))| == ClusterSize(g)
    ensures DirOf(PutCluster(disk1, g, c, ZeroBytes(ClusterSize(g))), g, q + [c]) ==
            DirOf(disk, g, q) + ZeroSlots(PerCluster(g))
  {
    hide DataKept, SlotsOf, ClusterBytes, PutCluster, FileBytes;
    var zeros := ZeroBytes(ClusterSize(g));
    var disk2 := PutCluster(disk1, g, c, zeros);
    TableWriteFile(disk, disk1, g, q);
    OtherFile(disk1, g, q, c, zeros);
    PutClusterReads(disk1, g, c, zeros, c);
    DirSnoc(disk2, g, q + [c], |q|);
    assert (q + [c])[..|q|] == q && (q + [c])[..|q| + 1] == q + [c];
    SlotsInBytes(g, 0);
    ZeroCut(PerCluster(g));
  }

  /** Every other file keeps its chain and its bytes. */
  ghost predicate OtherFiles(disk: Disk, chains: Chains, disk': Disk, chains': Chains, g: Geometry, first: nat) {
    forall b :: b in chains && b != first ==>
      b in chains' && chains'[b] == chains[b] && FileBytes(disk', g, chains[b]) == FileBytes(disk, g, chains[b])
  }

  lemma OtherFilesRefl(disk: Disk, chains: Chains, g: Geometry, first: nat)
    ensures OtherFiles(disk, chains, disk, chains, g, first)
  {
  }

  lemma OtherFilesTrans(disk: Disk, chains: Chains, disk1: Disk, chains1: Chains, disk2: Disk, chains2: Chains,
                        g: Geometry, first: nat)
    requires OtherFiles(disk, chains, disk1, chains1, g, first) && OtherFiles(disk1, chains1, disk2, chains2, g, first)
    ensures OtherFiles(disk, chains, disk2, chains2, g, first)
  {
    hide FileBytes;
  }

  lemma AppendedOthers(disk: Disk, disk1: Disk, g: Geometry, fat: seq<nat>, chains: Chains, first: nat, c: nat)
    requires DataKept(disk, disk1, g) && 0 < g.perCluster && ChainsOk(fat, chains) && first in chains
    requires 2 <= c < |fat| <= BAD && fat[c] == 0
    ensures |ZeroBytes(ClusterSize(g))| == ClusterSize(g)
    ensures OtherFiles(disk, chains, PutCluster(disk1, g, c, ZeroBytes(ClusterSize(g))),
                       chains[first := chains[first] + [c]], g, first)
  {
    hide FileBytes, DataKept, PutCluster, ClusterSize;
    var zeros := ZeroBytes(ClusterSize(g));
    forall b | b in chains && b != first
      ensures FileBytes(PutCluster(disk1, g, c, zeros), g, chains[b]) == FileBytes(disk, g, chains[b])
    {
      ChainShape(fat, chains, b);
      LooseCluster(fat, chains, b, c);
      TableWriteFile(disk, disk1, g, chains[b]);
      OtherFile(disk1, g, chains[b], c, zeros);
    }
  }

  lemma LooseCluster(fat: seq<nat>, chains: Chains, b: nat, c: nat)
    requires ChainsOk(fat, chains) && b in chains && c < |fat| <= BAD && fat[c] == 0
    ensures c !in chains[b]
  {
    forall i | 0 <= i < |chains[b]|
      ensures chains[b][i] != c
    {
      InChainUsed(fat, chains, b, i);
    }
  }

  lemma StillThere(disk: Disk, disk': Disk, g: Geometry)
    requires DataThere(disk, g) && DataKept(disk, disk', g)
    ensures DataThere(disk', g)
  {
    forall c | 2 <= c < g.Entries()
      ensures ClusterThere(disk', g, c)
    {
      assert ClusterThere(disk, g, c);
    }
  }

  /** The clusters that can still be allocated. */
  ghost function FreeClusters(fat: seq<nat>): set<nat> {
    set c | 2 <= c < |fat| && fat[c] == 0
  }

  lemma AllocTakes(fat: seq<nat>, chains: Chains, first: nat, c: nat)
    requires ChainsOk(fat, chains) && first in chains && 2 <= c < |fat| <= BAD && fat[c] == 0 && chains[first] != []
    ensures FreeClusters(AllocFat(fat, c, LastOf(chains[first]))) == FreeClusters(fat) - {c} && c in FreeClusters(fat)
  {
    InChainUsed(fat, chains, first, |chains[first]| - 1);
  }

  /** One more zeroed cluster behind a directory; None when the volume is full. */
  method AppendCluster(v: Volume, first: nat) returns (r: Option<nat>)
    requires v.Valid() && DataThere(v.disk, v.g) && v.g.start == 0 && first in v.chains
    modifies v
    ensures v.Valid() && DataThere(v.disk, v.g)
    ensures OtherFiles(old(v.disk), old(v.chains), v.disk, v.chains, v.g, first)
    ensures r.None? <==> forall c :: 2 <= c < |old(v.fat)| ==> old(v.fat)[c] != 0
    ensures r.None? ==> v.fat == old(v.fat) && FreeClusters(v.fat) == {}
    ensures r.Some? ==> r.value in FreeClusters(old(v.fat))
    ensures r.Some? ==> FreeClusters(v.fat) == FreeClusters(old(v.fat)) - {r.value}
    ensures first in v.chains && v.chains[first] == old(v.chains)[first] + if r.Some? then [r.value] else []
    ensures DirOf(v.disk, v.g, v.chains[first]) ==
            old(DirOf(v.disk, v.g, v.chains[first])) + ZeroSlots(if r.Some? then PerCluster(v.g) else 0)
  {
    hide Represents, CacheOk, ChainsOk, BitmapOk, DataThere, DirOf, DataKept, FileBytes, ClusterBytes, ClusterSize,
      PerCluster,
      OtherFiles, PutCluster, ZeroSlots, ZeroBytes, Sane;
    ghost var disk0, chains0, fat0, q := v.disk, v.chains, v.fat, v.chains[first];
    v.SmallTable();
    SomeSize(v.g);
    OtherFilesRefl(disk0, chains0, v.g, first);
    NoneAtZero(fat0, chains0);
    ChainShape(fat0, chains0, first);
    AddNothing(DirOf(v.disk, v.g, q));
    var new_ := v.AllocCluster(first);
    if new_.None? {
      OtherDisk(disk0, v.disk, v.g, fat0, chains0, first);
      StillThere(disk0, v.disk, v.g);
      return None;
    }
    var c := new_.value.0;
    LooseCluster(fat0, chains0, first, c);
    NotNothing(fat0, chains0, first);
    AllocTakes(fat0, chains0, first, c);
    StillThere(disk0, v.disk, v.g);
    Appended(disk0, v.disk, v.g, q, c);
    AppendedOthers(disk0, v.disk, v.g, fat0, chains0, first, c);
    OneThere(v.disk, v.g, c);
    StillMounted(v.disk, v.g, c, ZeroBytes(ClusterSize(v.g)), v.fat, v.cacheKey, v.cacheBuf);
    var ok := WriteCluster(v, c, ZeroBytes(ClusterSize(v.g)));
    return Some(c);
  }

  lemma NotNothing(fat: seq<nat>, chains: Chains, first: nat)
    requires ChainsOk(fat, chains) && first in chains
    ensures chains[first] != []
  {
  }

  lemma AddNothing(dir: Dir)
    ensures dir + ZeroSlots(0) == dir
  {
  }

  /** A full volume is left alone but for the cache. */
  lemma OtherDisk(disk: Disk, disk': Disk, g: Geometry, fat: seq<nat>, chains: Chains, first: nat)
    requires DataKept(disk, disk', g) && ChainsOk(fat, chains) && first in chains
    ensures OtherFiles(disk, chains, disk', chains, g, first)
    ensures DirOf(disk', g, chains[first]) == DirOf(disk, g, chains[first])
  {
    hide FileBytes, DataKept, SlotsOf;
    forall b | b in chains
      ensures FileBytes(disk', g, chains[b]) == FileBytes(disk, g, chains[b])
    {
      ChainShape(fat, chains, b);
      TableWriteFile(disk, disk', g, chains[b]);
    }
  }

  /** No run of `m` slots in the directory, and fewer free clusters than `m` slots take. */
  ghost predicate NoPlace(dir: Dir, per: nat, m: nat, fat: seq<nat>)
    requires 0 < per
  {
    FindRun(dir, per, m).None? && |FreeClusters(fat)| < (m + per - 1) / per
  }

  /** `find_free_dir_slot` for one slot, `find_n_free_dir_slots` for more: the run the search chooses, in new
      clusters when there is none.  None exactly when there is none and too few clusters are free. */
  method FindFreeSlots(v: Volume, first: nat, count: nat) returns (r: Option<(nat, nat)>, ghost k: nat, ghost n: nat)
    requires v.Valid() && DataThere(v.disk, v.g) && v.g.start == 0 && first in v.chains
    modifies v
    ensures v.Valid() && DataThere(v.disk, v.g) && first in v.chains && 0 < PerCluster(v.g)
    ensures OtherFiles(old(v.disk), old(v.chains), v.disk, v.chains, v.g, first)
    ensures DirOf(v.disk, v.g, v.chains[first]) == old(DirOf(v.disk, v.g, v.chains[first])) + ZeroSlots(SlotsIn(v.g, n))
    ensures var dir, m := old(DirOf(v.disk, v.g, v.chains[first])), AtLeastOne(count);
            && (FindRun(dir, PerCluster(v.g), m).Some? ==> r.Some? && n == 0)
            && (r.Some? ==>
                  && k < |v.chains[first]| && r.value.0 == v.chains[first][k] && r.value.1 < PerCluster(v.g)
                  && SlotsIn(v.g, k) + r.value.1 == Chosen(dir, PerCluster(v.g), m)
                  && Chosen(dir, PerCluster(v.g), m) + m <= |dir| + SlotsIn(v.g, n))
    ensures var dir, m := old(DirOf(v.disk, v.g, v.chains[first])), AtLeastOne(count);
            r.None? <==> NoPlace(dir, PerCluster(v.g), m, old(v.fat))
    ensures r.None? ==> FreeClusters(v.fat) == {}
  {
    hide Represents, CacheOk, ChainsOk, BitmapOk, DataThere, DirOf, SlotsIn, PerCluster, OtherFiles, ZeroSlots,
      FindRun, Sane, FreeClusters;
    ghost var disk0, chains0, fat0, q := v.disk, v.chains, v.fat, v.chains[first];
    ghost var dir := DirOf(v.disk, v.g, q);
    var m := AtLeastOne(count);
    OtherFilesRefl(disk0, chains0, v.g, first);
    SlotsInStep(v.g, 0);
    AddNothing(dir);
    n := 0;
    r, k := FindExisting(v, first, m);
    DirChosen(v.disk, v.g, q, m);
    if r.Some? {
      return;
    }
    PerClusterIs(v.g);
    var needed := (m + v.g.perCluster * 16 - 1) / (v.g.perCluster * 16);
    EnoughClusters(v.g, m, needed);
    k := |q|;
    DirSize(v.disk, v.g, q);
    var firstNew := 0;
    for j := 0 to needed
      invariant v.Valid() && DataThere(v.disk, v.g) && first in v.chains && n == j
      invariant OtherFiles(disk0, chains0, v.disk, v.chains, v.g, first)
      invariant DirOf(v.disk, v.g, v.chains[first]) == dir + ZeroSlots(SlotsIn(v.g, j))
      invariant 0 < j ==> |q| < |v.chains[first]| && v.chains[first][|q|] == firstNew
      invariant j == 0 ==> v.chains[first] == q
      invariant |FreeClusters(v.fat)| + j == |FreeClusters(fat0)|
    {
      ghost var disk1, chains1 := v.disk, v.chains;
      var c := AppendCluster(v, first);
      OtherFilesTrans(disk0, chains0, disk1, chains1, v.disk, v.chains, v.g, first);
      if c.None? {
        AddNothing(dir + ZeroSlots(SlotsIn(v.g, j)));
        return;
      }
      if j == 0 {
        firstNew := c.value;
      }
      SlotsInStep(v.g, j);
      ZeroJoin(SlotsIn(v.g, j), PerCluster(v.g));
      assert (dir + ZeroSlots(SlotsIn(v.g, j))) + ZeroSlots(PerCluster(v.g)) == dir + ZeroSlots(SlotsIn(v.g, j + 1));
      n := j + 1;
    }
    return Some((firstNew, 0)), |q|, needed;
  }

  function AtLeastOne(count: nat): (m: nat)
    ensures 0 < m
  {
    if count <= 1 then 1 else count
  }

  lemma DirChosen(disk: Disk, g: Geometry, q: seq<nat>, m: nat)
    requires 0 < PerCluster(g) && 0 < m
    ensures |DirOf(disk, g, q)| % PerCluster(g) == 0
    ensures FindRun(DirOf(disk, g, q), PerCluster(g), m).Some? ==>
              Chosen(DirOf(disk, g, q), PerCluster(g), m) + m <= |DirOf(disk, g, q)|
  {
    hide DirOf, PerCluster, FindRun, EndOf;
    DirSize(disk, g, q);
    Remainder(SlotsIn(g, |q|), PerCluster(g), |q|, 0);
    ChosenInSight(DirOf(disk, g, q), PerCluster(g), m);
  }

  lemma EnoughClusters(g: Geometry, m: nat, needed: nat)
    requires 0 < PerCluster(g) && 0 < m && needed == (m + PerCluster(g) - 1) / PerCluster(g)
    ensures 0 < needed && m <= SlotsIn(g, needed)
  {
    var d := PerCluster(g);
    hide PerCluster;
    var x := m + d - 1;
    assert x == needed * d + x % d;
    assert needed == 0 ==> needed * d == 0;
  }

  // ---------------------------------------------------------------------------
  // Creating an entry
  // ---------------------------------------------------------------------------

  /** Unused slots behind a directory do not move the place where a scan stops. */
  lemma EndWide(dir: Dir, n: nat)
    ensures EndOf(dir + ZeroSlots(n)) == EndOf(dir)
  {
    hide EndOf;
    var wide := dir + ZeroSlots(n);
    var z := EndOf(dir);
    assert forall i :: 0 <= i < |dir| ==> wide[i] == dir[i];
    assert z < |wide| ==> wide[z][0] == 0;
    assert forall i :: 0 <= i < z ==> wide[i][0] != 0;
  }

  lemma ListedWide(dir: Dir, n: nat)
    ensures List(dir + ZeroSlots(n)) == List(dir)
  {
    hide EndOf, List;
    EndWide(dir, n);
    ListedUpTo(dir);
    ListedUpTo(dir + ZeroSlots(n));
    assert (dir + ZeroSlots(n))[..EndOf(dir)] == dir[..EndOf(dir)];
  }

  lemma FreeRunWide(dir: Dir, n: nat, p: nat, m: nat)
    requires p + m <= |dir| + n && p <= EndOf(dir) && (FreeRun(dir, p, m) || p == |dir|)
    ensures FreeRun(dir + ZeroSlots(n), p, m)
  {
    hide EndOf;
    EndWide(dir, n);
    assert forall i :: 0 <= i < |dir| ==> (dir + ZeroSlots(n))[i] == dir[i];
  }

  /** The new entry goes where a listing sees it: there is no 0x00 slot, or the set fits before it. */
  ghost predicate InSight(dir: Dir, per: nat, m: nat)
    requires 0 < per
  {
    EndOf(dir) == |dir| || Fits(dir, per, m)
  }

  /** The listing `now` is `was` with `e` put in somewhere. */
  ghost predicate Gains(was: seq<Listed>, now: seq<Listed>, e: Listed) {
    exists k :: 0 <= k <= |was| && now == was[..k] + [e] + was[k..]
  }

  /** The set is seen, and does not uncover old entries behind the first 0x00 slot. */
  ghost predicate AddsOne(dir: Dir, per: nat, m: nat)
    requires 0 < per
  {
    && InSight(dir, per, m)
    && (Chosen(dir, per, m) + m <= |dir| ==> !Uncovers(dir, Chosen(dir, per, m), m))
  }

  /** Unused slots behind a directory are never uncovered. */
  lemma UncoversWide(dir: Dir, n: nat, p: nat, m: nat)
    requires p + m <= |dir| + n && (p + m <= |dir| || p == |dir|)
    ensures Uncovers(dir + ZeroSlots(n), p, m) <==> p + m <= |dir| && Uncovers(dir, p, m)
  {
    hide EndOf, List;
    var wide := dir + ZeroSlots(n);
    EndWide(dir, n);
    if p + m <= |dir| {
      assert wide[p + m..] == dir[p + m..] + ZeroSlots(n);
      ListedWide(dir[p + m..], n);
    } else {
      assert wide[p + m..] == [] + ZeroSlots(|dir| + n - p - m);
      ListedWide([], |dir| + n - p - m);
      NothingToList();
    }
  }

  lemma NothingToList()
    ensures List([]) == []
  {
  }

  lemma GainsIff(front: seq<Listed>, back: seq<Listed>, e: Listed, was: seq<Listed>)
    requires was == front + back || (was == front && back != [])
    ensures Gains(was, front + [e] + back, e) <==> was == front + back
  {
    if was == front + back {
      assert was[..|front|] == front && was[|front|..] == back;
    } else {
      assert forall k :: 0 <= k <= |was| ==> |was[..k] + [e] + was[k..]| == |was| + 1;
    }
  }

  lemma GainsNothing(was: seq<Listed>, e: Listed)
    ensures !Gains(was, was, e)
  {
    assert forall k :: 0 <= k <= |was| ==> |was[..k] + [e] + was[k..]| == |was| + 1;
  }

  /** What the directory lists once the set stands at the chosen place. */
  lemma CreatedLists(dir: Dir, n: nat, per: nat, name: Name, short: seq<Byte>, attr: Byte, cluster: nat, size: nat)
    requires Plain(name) && ShortOk(short, attr) && cluster < WORD_LIMIT && size < WORD_LIMIT
    requires 0 < per && |dir| % per == 0 && Chosen(dir, per, LfnCount(name) + 1) + LfnCount(name) + 1 <= |dir| + n
    requires |Set(name, short, attr, cluster, size)| == LfnCount(name) + 1
    ensures var wide, p, m := dir + ZeroSlots(n), Chosen(dir, per, LfnCount(name) + 1), LfnCount(name) + 1;
            var created := List(Replace(wide, p, Set(name, short, attr, cluster, size)));
            created == if InSight(dir, per, m)
                       then List(wide[..p]) + [NewEntry(name, attr, cluster, size)] + List(wide[p + m..])
                       else List(dir)
    ensures var wide, p := dir + ZeroSlots(n), Chosen(dir, per, LfnCount(name) + 1);
            var created := List(Replace(wide, p, Set(name, short, attr, cluster, size)));
            Gains(List(dir), created, NewEntry(name, attr, cluster, size)) <==> AddsOne(dir, per, LfnCount(name) + 1)
  {
    hide EndOf, List, Set, FindRun, Fits, NewEntry, Plain, Gains, Uncovers;
    var wide, p, m := dir + ZeroSlots(n), Chosen(dir, per, LfnCount(name) + 1), LfnCount(name) + 1;
    ChosenInSight(dir, per, m);
    EndWide(dir, n);
    if InSight(dir, per, m) {
      FreeRunWide(dir, n, p, m);
      WriteThenList(wide, p, name, short, attr, cluster, size);
      ListWithoutRun(wide, p, m);
      UncoversWide(dir, n, p, m);
      ListedWide(dir, n);
      GainsIff(List(wide[..p]), List(wide[p + m..]), NewEntry(name, attr, cluster, size), List(dir));
    } else {
      ListedWide(dir, n);
      GainsNothing(List(dir), NewEntry(name, attr, cluster, size));
      WrittenTooFar(wide, p, Set(name, short, attr, cluster, size));
    }
  }

  lemma {:induction false} SameBytes(disk: Disk, disk': Disk, g: Geometry, q: seq<nat>)
    requires forall i :: 0 <= i < |q| ==> ClusterBytes(disk', g, q[i]) == ClusterBytes(disk, g, q[i])
    ensures FileBytes(disk', g, q) == FileBytes(disk, g, q)
  {
    hide ClusterBytes;
    if q != [] { SameBytes(disk, disk', g, q[..|q| - 1]); }
  }

  /** Writing inside one chain leaves every other file alone. */
  lemma WrittenOthers(disk: Disk, disk': Disk, g: Geometry, fat: seq<nat>, chains: Chains, first: nat)
    requires ChainsOk(fat, chains) && first in chains && OthersKept(disk, disk', g, chains[first])
    ensures OtherFiles(disk, chains, disk', chains, g, first)
  {
    hide FileBytes, ClusterBytes, ChainsOk;
    forall b | b in chains && b != first
      ensures FileBytes(disk', g, chains[b]) == FileBytes(disk, g, chains[b])
    {
      ChainShape(fat, chains, b);
      forall i | 0 <= i < |chains[b]|
        ensures chains[b][i] !in chains[first]
      {
        ChainsApart(fat, chains, b, i, first);
      }
      SameBytes(disk, disk', g, chains[b]);
    }
  }

  lemma ChainsApart(fat: seq<nat>, chains: Chains, b: nat, i: nat, first: nat)
    requires ChainsOk(fat, chains) && first in chains && b in chains && b != first && i < |chains[b]|
    ensures chains[b][i] !in chains[first]
  {
    assert forall j :: 0 <= j < |chains[first]| ==> Position(chains, first, j);
    assert Position(chains, b, i);
  }

  /** The directory part of `create` for a long name: choose slots, extend the directory if need be, write the
      set.  Out of sight, behind a 0x00 slot, the listing stays what it was.  In sight it gains the new name and
      whatever the set uncovers, so it gains exactly the new name if and only if the set is in sight and
      uncovers nothing.  None exactly when there is no run and too few clusters are free. */
  method CreateEntry(v: Volume, first: nat, name: Name, short: seq<Byte>, attr: Byte, target: nat, size: nat)
    returns (at: Option<(nat, nat)>, ghost n: nat)
    requires v.Valid() && DataThere(v.disk, v.g) && v.g.start == 0 && first in v.chains
    requires Plain(name) && ShortOk(short, attr) && target < WORD_LIMIT && size < WORD_LIMIT
    modifies v
    ensures v.Valid() && DataThere(v.disk, v.g) && first in v.chains && 0 < PerCluster(v.g)
    ensures OtherFiles(old(v.disk), old(v.chains), v.disk, v.chains, v.g, first)
    ensures at.None? <==> old(NoPlace(DirOf(v.disk, v.g, v.chains[first]), PerCluster(v.g), LfnCount(name) + 1, v.fat))
    ensures at.None? ==> FreeClusters(v.fat) == {}
    ensures at.None? ==> List(DirOf(v.disk, v.g, v.chains[first])) == old(List(DirOf(v.disk, v.g, v.chains[first])))
    ensures at.Some? ==>
              var dir, m := old(DirOf(v.disk, v.g, v.chains[first])), LfnCount(name) + 1;
              var wide, p := dir + ZeroSlots(SlotsIn(v.g, n)), Chosen(dir, PerCluster(v.g), m);
              && p + m <= |wide| && (FindRun(dir, PerCluster(v.g), m).Some? ==> n == 0)
              && List(DirOf(v.disk, v.g, v.chains[first])) ==
                 if InSight(dir, PerCluster(v.g), m)
                 then List(wide[..p]) + [NewEntry(name, attr, target, size)] + List(wide[p + m..])
                 else List(dir)
    ensures at.Some? ==>
              var dir, m := old(DirOf(v.disk, v.g, v.chains[first])), LfnCount(name) + 1;
              Gains(List(dir), List(DirOf(v.disk, v.g, v.chains[first])), NewEntry(name, attr, target, size)) <==>
              AddsOne(dir, PerCluster(v.g), m)
  {
    hide Represents, CacheOk, ChainsOk, BitmapOk, DataThere, DirOf, SlotsIn, PerCluster, OtherFiles, FindRun, Sane,
      List, Set, NewEntry, Plain, ShortOk, InSight, OthersKept, Replace, Gains, AddsOne, NoPlace;
    ghost var dir := DirOf(v.disk, v.g, v.chains[first]);
    ghost var q := v.chains[first];
    ShortLength(short, attr);
    SetSize(name, short, attr, target, size);
    SomePer(v.g);
    DirChosen(v.disk, v.g, q, LfnCount(name) + 1);
    var place;
    ghost var k;
    CountFits(name);
    place, k, n := FindFreeSlots(v, first, LfnCount(name) + 1);
    ListedWide(dir, SlotsIn(v.g, n));
    if place.None? {
      return None, n;
    }
    DirSize(v.disk, v.g, v.chains[first]);
    ghost var disk1 := v.disk;
    var end;
    ghost var last;
    end, last := WriteLfnAnd83(v, place.value.0, place.value.1, name, short, attr, target, size, first, k);
    WrittenOthers(disk1, v.disk, v.g, v.fat, v.chains, first);
    OtherFilesTrans(old(v.disk), old(v.chains), disk1, v.chains, v.disk, v.chains, v.g, first);
    CreatedLists(dir, SlotsIn(v.g, n), PerCluster(v.g), name, short, attr, target, size);
    return Some(end), n;
  }

  lemma SomePer(g: Geometry)
    requires Sane(g)
    ensures 0 < PerCluster(g)
  {
  }

  /** One cluster of 16 slots, 15 of them in use: a set of two slots goes behind the 0x00 slot. */
  lemma OutOfSight(used: Slot)
    requires !Reusable(used)
    ensures var dir := seq(15, _ => used) + ZeroSlots(1);
            && EndOf(dir) == 15 && Chosen(dir, 16, 2) == 16 && !InSight(dir, 16, 2)
  {
    hide EndOf;
    var dir := seq(15, _ => used) + ZeroSlots(1);
    assert forall i :: 0 <= i < 15 ==> dir[i] == used;
    assert dir[15] == ZeroBytes(SLOT);
    assert EndOf(dir) == 15;
    assert dir[..16] == dir;
    ScanRunFinds(dir, 0, 0, 2);
    forall a: nat
      ensures !FreeRun(dir, a, 2)
    {
      if a < 15 { assert dir[a] == used; }
    }
    ChosenInSight(dir, 16, 2);
  }

  /** One cluster, two 0x00 slots in front of an old entry: a set of two slots brings the entry back. */
  lemma OldEntryReturns(old_: Slot)
    requires !Reusable(old_) && !IsLfn(old_) && !IsDot(old_) && old_[11] != 0x08
    ensures var dir := ZeroSlots(2) + [old_] + ZeroSlots(13);
            && |dir| == 16 && List(dir) == [] && |List(dir[2..])| == 1 && Chosen(dir, 16, 2) == 0
            && InSight(dir, 16, 2) && Uncovers(dir, 0, 2) && !AddsOne(dir, 16, 2)
  {
    hide EndOf, List;
    var dir := ZeroSlots(2) + [old_] + ZeroSlots(13);
    assert dir[0] == ZeroBytes(SLOT) && dir[0][0] == 0;
    assert EndOf(dir) == 0 && dir[..0] == [] && dir[..16] == dir;
    ListedUpTo(dir);
    NothingToList();
    assert dir[2..] == [old_] + ZeroSlots(13);
    ListedWide([old_], 13);
    OneListed(old_);
    assert ScanRun(dir, 0, 0, 2) == Some(0);
    ChosenInSight(dir, 16, 2);
  }

  lemma OneListed(slot: Slot)
    requires !Reusable(slot) && !IsLfn(slot) && !IsDot(slot) && slot[11] != 0x08
    ensures |List([slot])| == 1
  {
    assert [slot][1..] == [] && ScanFrom(START, [slot]) == Step(START, slot);
  }
}
