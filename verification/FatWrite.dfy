/** `write_at` for every offset: inside the chain, at its end, and beyond it. */
module FatWrite {
  import opened Options
  import opened FatDisk
  import opened FatChains
  import opened FatVolume
  import opened FatContent
  import opened FatFiles
  import opened FatSlots

  /** The clusters of a file; an empty file has none. */
  function ChainOf(chains: Chains, first: nat): seq<nat> {
    if first in chains then chains[first] else []
  }

  /** The device ends before the cluster an end mark would name. */
  ghost predicate EndAbsent(disk: Disk, g: Geometry) {
    forall e :: IsEof(e) ==> !ClusterThere(disk, g, e)
  }

  ghost predicate Full(fat: seq<nat>) {
    forall c :: 2 <= c < |fat| ==> fat[c] != 0
  }

  ghost predicate Writable(v: Volume, first: nat)
    reads v
  {
    && v.Valid() && DataThere(v.disk, v.g) && EndAbsent(v.disk, v.g) && v.g.start == 0
    && (first in v.chains || first < 2)
  }

  /** Allocated clusters stay allocated. */
  ghost predicate UsedStay(fat: seq<nat>, fat': seq<nat>) {
    |fat'| == |fat| && forall c :: 2 <= c < |fat| && fat[c] != 0 ==> fat'[c] != 0
  }

  // ---------------------------------------------------------------------------
  // One round of the loop
  // ---------------------------------------------------------------------------

  /** Read, patch and write one cluster.  A cluster that cannot be read cannot be written either, so what
      the buffer held before does not matter. */
  method PatchCluster(v: Volume, c: nat, o: nat, chunk: seq<Byte>) returns (ok: bool)
    requires o + |chunk| <= ClusterSize(v.g)
    modifies v`disk
    ensures ok <==> old(ClusterThere(v.disk, v.g, c))
    ensures !ok ==> v.disk == old(v.disk)
    ensures ok ==>
              && |Patch(old(ClusterBytes(v.disk, v.g, c)), o, chunk)| == ClusterSize(v.g)
              && v.disk == PutCluster(old(v.disk), v.g, c, Patch(old(ClusterBytes(v.disk, v.g, c)), o, chunk))
  {
    hide ClusterBytes, PutCluster, ClusterSize;
    ClusterLength(v.disk, v.g, c);
    var was := ReadCluster(v, c);
    var data := Patch(if was.Some? then was.value else seq(ClusterSize(v.g), _ => 0), o, chunk);
    ok := WriteCluster(v, c, data);
  }

  /** How the loop goes on at `pos`: in a cluster of the chain, against the end mark, or past it. */
  datatype Place = In(k: nat) | AtEnd | Past

  function PlaceOf(g: Geometry, n: nat, pos: nat): Place
    requires 0 < ClusterSize(g)
  {
    if IndexAt(g, pos) < n then In(IndexAt(g, pos)) else if n != 0 && IndexAt(g, pos) == n then AtEnd else Past
  }

  /** The file over `q` differs from before in the stretch `chunk` at `at`, and in nothing else. */
  ghost predicate FilePatched(disk: Disk, disk': Disk, g: Geometry, q: seq<nat>, at: nat, chunk: seq<Byte>) {
    && at + |chunk| <= |FileBytes(disk, g, q)|
    && FileBytes(disk', g, q) == Patch(FileBytes(disk, g, q), at, chunk)
  }

  /** What one round at `pos` does to a file with clusters `q`: it writes `n` bytes of `buf`, and the clusters
      become `q + added`. */
  ghost predicate StepFile(disk: Disk, fat: seq<nat>, disk': Disk, fat': seq<nat>, g: Geometry, q: seq<nat>, pos: nat,
                           buf: seq<Byte>, n: nat, added: seq<nat>)
    requires 0 < ClusterSize(g)
  {
    var room := Min(|buf|, ClusterSize(g) - OffsetAt(g, pos));
    match PlaceOf(g, |q|, pos)
    case In(_) => n == room && added == [] && fat' == fat && FilePatched(disk, disk', g, q, pos, buf[..n])
    case AtEnd => n == 0 && added == [] && fat' == fat && FileBytes(disk', g, q) == FileBytes(disk, g, q)
    case Past =>
      if Full(fat) then n == 0 && added == [] && fat' == fat && FileBytes(disk', g, q) == FileBytes(disk, g, q)
      else
        && n == room && |added| == 1
        && FilePatched(disk, disk', g, q + added, Begin(g, |q|) + OffsetAt(g, pos), buf[..n])
  }

  /** Nothing outside the file changes, and its clusters stay clusters of the table. */
  ghost predicate StepFrame(disk: Disk, fat: seq<nat>, chains: Chains, disk': Disk, fat': seq<nat>, chains': Chains,
                            g: Geometry, first: nat, first': nat, added: seq<nat>) {
    && ChainOf(chains', first') == ChainOf(chains, first) + added && (first' == first || first' !in chains)
    && OtherFiles(disk, chains, disk', chains', g, first)
    && OthersKept(disk, disk', g, ChainOf(chains, first) + added) && UsedStay(fat, fat')
    && (added == [] ==> first' == first) && forall c :: c in added ==> 2 <= c < |fat| && fat[c] == 0
  }

  lemma PosIs(g: Geometry, pos: nat)
    requires 0 < ClusterSize(g)
    ensures OffsetAt(g, pos) < ClusterSize(g) && pos == Begin(g, IndexAt(g, pos)) + OffsetAt(g, pos)
  {
    var d := ClusterSize(g);
    assert pos == d * (pos / d) + pos % d;
  }

  lemma SmallFirst(fat: seq<nat>, chains: Chains)
    requires ChainsOk(fat, chains)
    ensures 0 !in chains && 1 !in chains
  {
    if 0 in chains { ChainShape(fat, chains, 0); }
    if 1 in chains { ChainShape(fat, chains, 1); }
  }

  lemma EndStillAbsent(disk: Disk, disk': Disk, g: Geometry)
    requires EndAbsent(disk, g) && disk'.Keys == disk.Keys
    ensures EndAbsent(disk', g)
  {
    hide DataSector;
    forall e | IsEof(e)
      ensures !ClusterThere(disk', g, e)
    {
      assert !ClusterThere(disk, g, e);
    }
  }

  /** A write inside the chain. */
  lemma StepIn(disk: Disk, fat: seq<nat>, chains: Chains, g: Geometry, first: nat, pos: nat, buf: seq<Byte>, n: nat)
    requires ChainsOk(fat, chains) && first in chains && 0 < ClusterSize(g) && 0 < g.perCluster
    requires IndexAt(g, pos) < |chains[first]| && n == Min(|buf|, ClusterSize(g) - OffsetAt(g, pos))
    ensures var c := chains[first][IndexAt(g, pos)];
            && 2 <= c < |fat| && OffsetAt(g, pos) + n <= ClusterSize(g)
            && |Patch(ClusterBytes(disk, g, c), OffsetAt(g, pos), buf[..n])| == ClusterSize(g)
            && var disk' := PutCluster(disk, g, c, Patch(ClusterBytes(disk, g, c), OffsetAt(g, pos), buf[..n]));
               && StepFile(disk, fat, disk', fat, g, chains[first], pos, buf, n, [])
               && StepFrame(disk, fat, chains, disk', fat, chains, g, first, first, [])
  {
    hide ChainsOk, FileBytes, ClusterBytes, Begin, ClusterSize, IndexAt, OffsetAt, PutCluster, Patch, OtherFiles;
    var q, k, o := chains[first], IndexAt(g, pos), OffsetAt(g, pos);
    PosIs(g, pos);
    ChainShape(fat, chains, first);
    ClusterLength(disk, g, q[k]);
    ChunkWritten(disk, g, q, k, o, buf[..n]);
    var disk' := PutCluster(disk, g, q[k], Patch(ClusterBytes(disk, g, q[k]), o, buf[..n]));
    WrittenOthers(disk, disk', g, fat, chains, first);
    assert q + [] == q;
  }

  /** The chain with a new cluster behind it, before anything is written there. */
  lemma Grown(disk: Disk, fat: seq<nat>, chains: Chains, disk1: Disk, fat1: seq<nat>, chains1: Chains, g: Geometry,
              first: nat, c: nat)
    requires ChainsOk(fat, chains) && ChainsOk(fat1, chains1) && DataKept(disk, disk1, g)
    requires (first in chains || first < 2) && 2 <= c < |fat| <= BAD && fat[c] == 0 && c !in chains
    requires chains1 == AllocChains(chains, if first < 2 then 0 else first, c)
    requires fat1 == AllocFat(fat, c, if first in chains then LastOf(chains[first]) else 0)
    ensures var first', q := if first < 2 then c else first, ChainOf(chains, first);
            && first' in chains1 && chains1[first'] == q + [c]
            && FileBytes(disk1, g, q + [c]) == FileBytes(disk, g, q + [c])
            && OtherFiles(disk, chains, disk1, chains1, g, first)
            && OthersKept(disk, disk1, g, q) && UsedStay(fat, fat1)
  {
    hide FileBytes, DataKept, ClusterBytes, ChainsOk, AllocFat;
    SmallFirst(fat, chains);
    var first', q := if first < 2 then c else first, ChainOf(chains, first);
    ChainShape(fat1, chains1, first');
    TableWriteFile(disk, disk1, g, q + [c]);
    forall b | b in chains && b != first
      ensures FileBytes(disk1, g, chains[b]) == FileBytes(disk, g, chains[b])
    {
      ChainShape(fat, chains, b);
      TableWriteFile(disk, disk1, g, chains[b]);
    }
    forall d | 2 <= d
      ensures ClusterBytes(disk1, g, d) == ClusterBytes(disk, g, d)
    {
      TableWriteKeeps(disk, disk1, g, d);
    }
    if first in chains {
      LastIn(fat, chains, first);
      StillUsed(fat, c, LastOf(chains[first]));
    } else {
      StillUsed(fat, c, 0);
    }
  }

  lemma LastIn(fat: seq<nat>, chains: Chains, first: nat)
    requires ChainsOk(fat, chains) && first in chains
    ensures chains[first] != [] && 2 <= LastOf(chains[first]) < |fat|
  {
    ChainShape(fat, chains, first);
  }

  lemma StillUsed(fat: seq<nat>, c: nat, last: nat)
    requires 2 <= c < |fat| && last < |fat|
    ensures UsedStay(fat, AllocFat(fat, c, last))
  {
  }

  /** A write into the new cluster. */
  lemma StepPast(disk: Disk, fat: seq<nat>, chains: Chains, disk1: Disk, fat1: seq<nat>, chains1: Chains, g: Geometry,
                 first: nat, c: nat, pos: nat, buf: seq<Byte>, n: nat)
    requires ChainsOk(fat, chains) && ChainsOk(fat1, chains1) && DataKept(disk, disk1, g) && 0 < ClusterSize(g)
    requires 0 < g.perCluster
    requires (first in chains || first < 2) && 2 <= c < |fat| <= BAD && fat[c] == 0 && c !in chains
    requires chains1 == AllocChains(chains, if first < 2 then 0 else first, c)
    requires fat1 == AllocFat(fat, c, if first in chains then LastOf(chains[first]) else 0)
    requires PlaceOf(g, |ChainOf(chains, first)|, pos).Past? && n == Min(|buf|, ClusterSize(g) - OffsetAt(g, pos))
    ensures OffsetAt(g, pos) + n <= ClusterSize(g)
    ensures |Patch(ClusterBytes(disk1, g, c), OffsetAt(g, pos), buf[..n])| == ClusterSize(g)
    ensures var disk' := PutCluster(disk1, g, c, Patch(ClusterBytes(disk1, g, c), OffsetAt(g, pos), buf[..n]));
            && StepFile(disk, fat, disk', fat1, g, ChainOf(chains, first), pos, buf, n, [c])
            && StepFrame(disk, fat, chains, disk', fat1, chains1, g, first, if first < 2 then c else first, [c])
            && (if first < 2 then c else first) in chains1
  {
    hide ChainsOk, FileBytes, ClusterBytes, Begin, ClusterSize, IndexAt, OffsetAt, PutCluster, Patch, OtherFiles,
      UsedStay,
      OthersKept, AllocChains, AllocFat, DataKept;
    var q, o, first' := ChainOf(chains, first), OffsetAt(g, pos), if first < 2 then c else first;
    PosIs(g, pos);
    Grown(disk, fat, chains, disk1, fat1, chains1, g, first, c);
    ChainShape(fat1, chains1, first');
    ClusterLength(disk1, g, c);
    assert (q + [c])[|q|] == c;
    ChunkWritten(disk1, g, q + [c], |q|, o, buf[..n]);
    var disk' := PutCluster(disk1, g, c, Patch(ClusterBytes(disk1, g, c), o, buf[..n]));
    WrittenOthers(disk1, disk', g, fat1, chains1, first');
    SameOthers(disk, chains, disk1, chains1, disk', g, first, first', c);
    WiderKept(disk, disk1, disk', g, q, c);
    assert !Full(fat);
  }

  lemma SameOthers(disk: Disk, chains: Chains, disk1: Disk, chains1: Chains, disk': Disk, g: Geometry, first: nat,
                   first': nat, c: nat)
    requires OtherFiles(disk, chains, disk1, chains1, g, first) && OtherFiles(disk1, chains1, disk', chains1, g, first')
    requires first' == first || (first' == c && c !in chains)
    ensures OtherFiles(disk, chains, disk', chains1, g, first)
  {
    hide FileBytes;
  }

  lemma WiderKept(disk: Disk, disk1: Disk, disk': Disk, g: Geometry, q: seq<nat>, c: nat)
    requires OthersKept(disk, disk1, g, q) && OthersKept(disk1, disk', g, q + [c])
    ensures OthersKept(disk, disk', g, q + [c])
  {
    hide ClusterBytes;
  }

  /** Nothing written, nothing changed but the cache and unused table sectors. */
  lemma StepNone(disk: Disk, fat: seq<nat>, chains: Chains, disk': Disk, g: Geometry, first: nat)
    requires ChainsOk(fat, chains) && DataKept(disk, disk', g)
    ensures FileBytes(disk', g, ChainOf(chains, first)) == FileBytes(disk, g, ChainOf(chains, first))
    ensures StepFrame(disk, fat, chains, disk', fat, chains, g, first, first, [])
  {
    hide FileBytes, DataKept, ClusterBytes, ChainsOk;
    forall b | b in chains
      ensures FileBytes(disk', g, chains[b]) == FileBytes(disk, g, chains[b])
    {
      ChainShape(fat, chains, b);
      TableWriteFile(disk, disk', g, chains[b]);
    }
    forall d | 2 <= d
      ensures ClusterBytes(disk', g, d) == ClusterBytes(disk, g, d)
    {
      TableWriteKeeps(disk, disk', g, d);
    }
    TableWriteFile(disk, disk', g, []);
    assert ChainOf(chains, first) + [] == ChainOf(chains, first);
  }

  /** One round: find the cluster of `pos`, or take a new one behind the chain whatever `pos` is, and patch it.
      No bytes: the loop ends. */
  method WriteStep(v: Volume, first: nat, pos: nat, buf: seq<Byte>) returns (n: nat, first': nat, ghost added: seq<nat>)
    requires Writable(v, first) && buf != []
    modifies v
    ensures Writable(v, first') && 0 < ClusterSize(v.g)
    ensures StepFile(old(v.disk), old(v.fat), v.disk, v.fat, v.g, old(ChainOf(v.chains, first)), pos, buf, n, added)
    ensures StepFrame(old(v.disk), old(v.fat), old(v.chains), v.disk, v.fat, v.chains, v.g, first, first', added)
  {
    hide Represents, CacheOk, ChainsOk, BitmapOk, FileBytes, ClusterBytes, Begin, ClusterThere, ClusterSize, IndexAt,
      OffsetAt, DataThere, PutCluster, Patch, EndAbsent, FilePatched, DataKept, StepFrame, AllocChains, AllocFat;
    ghost var q, disk0, fat0, chains0 := ChainOf(v.chains, first), v.disk, v.fat, v.chains;
    v.SmallTable();
    SomeSize(v.g);
    SmallFirst(fat0, chains0);
    PosIs(v.g, pos);
    KeptNothing(disk0, v.g);
    if first in chains0 {
      ChainShape(fat0, chains0, first);
      LastIn(fat0, chains0, first);
    }
    var index, o := IndexAt(v.g, pos), OffsetAt(v.g, pos);
    n := Min(|buf|, ClusterSize(v.g) - o);
    var at := None;
    if first >= 2 {
      at := v.ClusterAtIndex(first, index);
    }
    if at.Some? && at.value >= 2 {
      first', added := first, [];
      if index < |q| {
        StepIn(disk0, fat0, chains0, v.g, first, pos, buf, n);
        OneThere(disk0, v.g, at.value);
        WrittenStays(v, disk0, at.value, Patch(ClusterBytes(disk0, v.g, at.value), o, buf[..n]));
      } else {
        StepNone(disk0, fat0, chains0, disk0, v.g, first);
        EndNotThere(disk0, v.g, at.value);
      }
      var ok := PatchCluster(v, at.value, o, buf[..n]);
      n := if ok then n else 0;
      return;
    }
    var r := v.AllocCluster(if first < 2 then 0 else first);
    StillThere(disk0, v.disk, v.g);
    SameSectors(disk0, v.disk, v.g);
    EndStillAbsent(disk0, v.disk, v.g);
    if r.None? {
      StepNone(disk0, fat0, chains0, v.disk, v.g, first);
      return 0, first, [];
    }
    var c := r.value.0;
    first', added := r.value.1, [c];
    ghost var disk1 := v.disk;
    StepPast(disk0, fat0, chains0, disk1, v.fat, v.chains, v.g, first, c, pos, buf, n);
    OneThere(disk1, v.g, c);
    WrittenStays(v, disk1, c, Patch(ClusterBytes(disk1, v.g, c), o, buf[..n]));
    var ok := PatchCluster(v, c, o, buf[..n]);
  }

  lemma SameSectors(disk: Disk, disk': Disk, g: Geometry)
    requires DataKept(disk, disk', g)
    ensures disk'.Keys == disk.Keys
  {
  }

  lemma KeptNothing(disk: Disk, g: Geometry)
    ensures DataKept(disk, disk, g)
  {
  }

  lemma EndNotThere(disk: Disk, g: Geometry, e: nat)
    requires EndAbsent(disk, g) && IsEof(e)
    ensures !ClusterThere(disk, g, e)
  {
  }

  /** Overwriting a cluster of the table leaves the volume ready for the next round. */
  lemma WrittenStays(v: Volume, disk: Disk, c: nat, data: seq<Byte>)
    requires v.Valid() && v.disk == disk && DataThere(disk, v.g) && EndAbsent(disk, v.g)
    requires 2 <= c < v.g.Entries() && |data| == ClusterSize(v.g)
    ensures var disk' := PutCluster(disk, v.g, c, data);
            && Represents(disk', v.g, v.fat) && CacheOk(disk', v.g, v.cacheKey, v.cacheBuf)
            && DataThere(disk', v.g) && EndAbsent(disk', v.g)
  {
    hide Represents, CacheOk, ChainsOk, BitmapOk, PutCluster, EndAbsent, ClusterThere;
    OneThere(disk, v.g, c);
    StillMounted(disk, v.g, c, data, v.fat, v.cacheKey, v.cacheBuf);
    PutClusterKeeps(disk, v.g, c, data);
    EndStillAbsent(disk, PutCluster(disk, v.g, c, data), v.g);
  }

  // ---------------------------------------------------------------------------
  // The loop
  // ---------------------------------------------------------------------------

  lemma FrameTrans(disk: Disk, fat: seq<nat>, chains: Chains, disk1: Disk, fat1: seq<nat>, chains1: Chains, disk2: Disk,
                   fat2: seq<nat>, chains2: Chains, g: Geometry, first: nat, first1: nat, first2: nat, a: seq<nat>,
                   b: seq<nat>)
    requires StepFrame(disk, fat, chains, disk1, fat1, chains1, g, first, first1, a)
    requires StepFrame(disk1, fat1, chains1, disk2, fat2, chains2, g, first1, first2, b)
    ensures StepFrame(disk, fat, chains, disk2, fat2, chains2, g, first, first2, a + b)
  {
    hide FileBytes, ClusterBytes, ChainOf;
    var q := ChainOf(chains, first);
    assert (q + a) + b == q + (a + b);
    assert forall c :: c in q + a ==> c in q + (a + b);
  }

  lemma FrameRefl(disk: Disk, fat: seq<nat>, chains: Chains, g: Geometry, first: nat)
    ensures StepFrame(disk, fat, chains, disk, fat, chains, g, first, first, [])
  {
    assert ChainOf(chains, first) + [] == ChainOf(chains, first);
  }

  /** After `total` bytes: where they are, and which clusters were added for them. */
  ghost predicate Progress(disk: Disk, fat: seq<nat>, disk': Disk, fat': seq<nat>, g: Geometry, q: seq<nat>,
                           added: seq<nat>, offset: nat, buf: seq<Byte>, total: nat)
    requires 0 < ClusterSize(g)
  {
    && total <= |buf|
    && match PlaceOf(g, |q|, offset)
       case In(_) =>
         && added == [] && fat' == fat && offset + total <= Begin(g, |q|)
         && FilePatched(disk, disk', g, q, offset, buf[..total])
       case AtEnd => total == 0 && added == [] && fat' == fat && FileBytes(disk', g, q) == FileBytes(disk, g, q)
       case Past =>
         if added == [] then total == 0 && fat' == fat && FileBytes(disk', g, q) == FileBytes(disk, g, q)
         else
           && OffsetAt(g, offset) <= Begin(g, |added|)
           && total == Min(|buf|, Begin(g, |added|) - OffsetAt(g, offset))
           && Begin(g, |added| - 1) < OffsetAt(g, offset) + total
           && (q == [] && IndexAt(g, offset) == 0 ==> |added| == 1)
           && FilePatched(disk, disk', g, q + added, Begin(g, |q|) + OffsetAt(g, offset), buf[..total])
  }

  /** Why a loop that has not written everything ends: the end mark, or a full volume. */
  ghost predicate Stopped(fat': seq<nat>, g: Geometry, q: seq<nat>, added: seq<nat>, offset: nat, total: nat)
    requires 0 < ClusterSize(g)
  {
    match PlaceOf(g, |q|, offset)
    case In(_) => offset + total == Begin(g, |q|)
    case AtEnd => true
    case Past => Full(fat') || (q == [] && IndexAt(g, offset) == 0 && |added| == 1)
  }

  lemma BeginAdds(g: Geometry, a: nat, b: nat)
    ensures Begin(g, a) + Begin(g, b) == Begin(g, a + b) && Begin(g, 0) == 0 && Begin(g, 1) == ClusterSize(g)
  {
    var d := ClusterSize(g);
    assert a * d + b * d == (a + b) * d;
  }

  lemma Aligned(g: Geometry, k: nat)
    requires 0 < ClusterSize(g)
    ensures IndexAt(g, Begin(g, k)) == k && OffsetAt(g, Begin(g, k)) == 0
  {
    var d := ClusterSize(g);
    assert Begin(g, k) == d * k;
    Remainder(Begin(g, k), d, k, 0);
  }

  /** Inside the chain the loop goes on until it meets the end mark. */
  lemma StandingIn(g: Geometry, n: nat, pos: nat)
    requires 0 < ClusterSize(g) && 0 < n && pos <= Begin(g, n)
    ensures PlaceOf(g, n, pos) == if pos == Begin(g, n) then AtEnd else In(IndexAt(g, pos))
    ensures pos < Begin(g, n) ==> pos + (ClusterSize(g) - OffsetAt(g, pos)) <= Begin(g, n)
  {
    hide Begin, IndexAt, OffsetAt, ClusterSize;
    if pos == Begin(g, n) {
      Aligned(g, n);
    } else {
      Locate(g, pos, n);
      BeginAdds(g, IndexAt(g, pos), 1);
      BeginAdds(g, IndexAt(g, pos) + 1, n - IndexAt(g, pos) - 1);
    }
  }

  /** Past the chain every full round ends at a cluster boundary that is still past the chain, except behind
      the first cluster of an empty file. */
  lemma StandingPast(g: Geometry, n: nat, k: nat, offset: nat, total: nat)
    requires 0 < ClusterSize(g) && PlaceOf(g, n, offset).Past? && 0 < k
    requires OffsetAt(g, offset) + total == Begin(g, k)
    ensures OffsetAt(g, offset + total) == 0
    ensures PlaceOf(g, n + k, offset + total) == if n == 0 && IndexAt(g, offset) == 0 then AtEnd else Past
  {
    hide Begin, IndexAt, OffsetAt, ClusterSize;
    PosIs(g, offset);
    BeginAdds(g, IndexAt(g, offset), k);
    Aligned(g, IndexAt(g, offset) + k);
  }

  lemma PatchOn(f: seq<Byte>, at: nat, buf: seq<Byte>, total: nat, n: nat)
    requires total + n <= |buf| && at + total + n <= |f|
    ensures Patch(Patch(f, at, buf[..total]), at + total, buf[total..][..n]) == Patch(f, at, buf[..total + n])
  {
    hide Patch;
    var front := buf[..total + n];
    assert front[..total] == buf[..total] && front[total..][..n] == buf[total..][..n] && front[..total + n] == front;
    PatchMore(f, at, front, total, n);
  }

  /** A round that wrote something carries the loop on. */
  lemma ProgressIn(disk: Disk, fat: seq<nat>, disk1: Disk, fat1: seq<nat>, disk2: Disk, fat2: seq<nat>, g: Geometry,
                   q: seq<nat>, added: seq<nat>, offset: nat, buf: seq<Byte>, total: nat, n: nat, more: seq<nat>)
    requires 0 < ClusterSize(g) && Progress(disk, fat, disk1, fat1, g, q, added, offset, buf, total) && total < |buf|
    requires PlaceOf(g, |q|, offset).In?
    requires StepFile(disk1, fat1, disk2, fat2, g, q + added, offset + total, buf[total..], n, more)
    ensures n == 0 ==> more == [] && fat2 == fat1 && Stopped(fat2, g, q, added, offset, total)
    ensures total + n <= |buf| && Progress(disk, fat, disk2, fat2, g, q, added + more, offset, buf, total + n)
  {
    hide Begin, IndexAt, OffsetAt, ClusterSize, FileBytes, Patch, Full;
    StandingIn(g, |q|, offset + total);
    assert q + added == q && buf[..total] + buf[total..][..n] == buf[..total + n];
    if offset + total < Begin(g, |q|) {
      PosIs(g, offset + total);
      FileLength(disk, g, q);
      PatchOn(FileBytes(disk, g, q), offset, buf, total, n);
    }
  }

  lemma PatchFront(f: seq<Byte>, x: seq<Byte>, at: nat, chunk: seq<Byte>)
    requires at + |chunk| <= |f|
    ensures Patch(f + x, at, chunk) == Patch(f, at, chunk) + x
  {
  }

  /** One more cluster behind the file, as it was on the old disk. */
  lemma GrownPatched(disk: Disk, disk1: Disk, g: Geometry, q: seq<nat>, c: nat, at: nat, chunk: seq<Byte>)
    requires FilePatched(disk, disk1, g, q, at, chunk) && ClusterBytes(disk1, g, c) == ClusterBytes(disk, g, c)
    ensures FilePatched(disk, disk1, g, q + [c], at, chunk)
  {
    hide Patch, ClusterBytes;
    var r := q + [c];
    assert r[..|r| - 1] == q && r[|r| - 1] == c;
    PatchFront(FileBytes(disk, g, q), ClusterBytes(disk, g, c), at, chunk);
  }

  lemma PatchedTwice(disk: Disk, disk1: Disk, disk2: Disk, g: Geometry, q: seq<nat>, at: nat, buf: seq<Byte>,
                     total: nat, n: nat)
    requires total + n <= |buf| && FilePatched(disk, disk1, g, q, at, buf[..total])
    requires FilePatched(disk1, disk2, g, q, at + total, buf[total..][..n])
    ensures FilePatched(disk, disk2, g, q, at, buf[..total + n])
  {
    hide Patch, FileBytes;
    FileLength(disk, g, q);
    FileLength(disk1, g, q);
    PatchOn(FileBytes(disk, g, q), at, buf, total, n);
  }

  /** The first round past the chain. */
  lemma ProgressFirst(disk: Disk, fat: seq<nat>, disk1: Disk, fat1: seq<nat>, disk2: Disk, fat2: seq<nat>, g: Geometry,
                      q: seq<nat>, offset: nat, buf: seq<Byte>, n: nat, more: seq<nat>)
    requires 0 < ClusterSize(g) && Progress(disk, fat, disk1, fat1, g, q, [], offset, buf, 0) && 0 < |buf|
    requires PlaceOf(g, |q|, offset).Past? && StepFile(disk1, fat1, disk2, fat2, g, q, offset, buf, n, more)
    requires forall c :: c in more ==> ClusterBytes(disk1, g, c) == ClusterBytes(disk, g, c)
    ensures n == 0 ==> more == [] && fat2 == fat1 && Stopped(fat2, g, q, [], offset, 0)
    ensures n <= |buf| && Progress(disk, fat, disk2, fat2, g, q, more, offset, buf, n)
  {
    hide Begin, IndexAt, OffsetAt, ClusterSize, FileBytes, Patch, ClusterBytes;
    PosIs(g, offset);
    BeginAdds(g, 0, 1);
    if more != [] {
      assert more == [more[0]];
      GrownSame(disk, disk1, g, q, more[0]);
    }
  }

  /** A later round. */
  lemma ProgressMore(disk: Disk, fat: seq<nat>, disk1: Disk, fat1: seq<nat>, disk2: Disk, fat2: seq<nat>, g: Geometry,
                     q: seq<nat>, added: seq<nat>, offset: nat, buf: seq<Byte>, total: nat, n: nat, more: seq<nat>)
    requires 0 < ClusterSize(g) && Progress(disk, fat, disk1, fat1, g, q, added, offset, buf, total) && total < |buf|
    requires PlaceOf(g, |q|, offset).Past? && added != []
    requires StepFile(disk1, fat1, disk2, fat2, g, q + added, offset + total, buf[total..], n, more)
    requires forall c :: c in more ==> ClusterBytes(disk1, g, c) == ClusterBytes(disk, g, c)
    ensures n == 0 ==> more == [] && fat2 == fat1 && Stopped(fat2, g, q, added, offset, total)
    ensures total + n <= |buf| && Progress(disk, fat, disk2, fat2, g, q, added + more, offset, buf, total + n)
  {
    hide Begin, IndexAt, OffsetAt, ClusterSize, FileBytes, Patch, ClusterBytes, FilePatched, Full;
    StandingPast(g, |q|, |added|, offset, total);
    if more != [] {
      BeginAdds(g, |q|, |added|);
      BeginAdds(g, |added|, 1);
      var at := Begin(g, |q|) + OffsetAt(g, offset);
      assert more == [more[0]] && q + (added + more) == (q + added) + [more[0]];
      GrownPatched(disk, disk1, g, q + added, more[0], at, buf[..total]);
      PatchedTwice(disk, disk1, disk2, g, q + (added + more), at, buf, total, n);
    } else {
      assert added + more == added;
      PatchedSame(disk, disk1, disk2, g, q + added, Begin(g, |q|) + OffsetAt(g, offset), buf[..total]);
    }
  }

  lemma PatchedSame(disk: Disk, disk1: Disk, disk2: Disk, g: Geometry, q: seq<nat>, at: nat, chunk: seq<Byte>)
    requires FilePatched(disk, disk1, g, q, at, chunk) && FileBytes(disk2, g, q) == FileBytes(disk1, g, q)
    ensures FilePatched(disk, disk2, g, q, at, chunk)
  {
  }

  lemma GrownSame(disk: Disk, disk1: Disk, g: Geometry, q: seq<nat>, c: nat)
    requires FileBytes(disk1, g, q) == FileBytes(disk, g, q) && ClusterBytes(disk1, g, c) == ClusterBytes(disk, g, c)
    ensures FileBytes(disk1, g, q + [c]) == FileBytes(disk, g, q + [c])
  {
    hide ClusterBytes;
    var r := q + [c];
    assert r[..|r| - 1] == q && r[|r| - 1] == c;
  }

  lemma ProgressStep(disk: Disk, fat: seq<nat>, disk1: Disk, fat1: seq<nat>, disk2: Disk, fat2: seq<nat>, g: Geometry,
                     q: seq<nat>, added: seq<nat>, offset: nat, buf: seq<Byte>, total: nat, n: nat, more: seq<nat>)
    requires 0 < ClusterSize(g) && Progress(disk, fat, disk1, fat1, g, q, added, offset, buf, total) && total < |buf|
    requires StepFile(disk1, fat1, disk2, fat2, g, q + added, offset + total, buf[total..], n, more)
    requires forall c :: c in more ==> ClusterBytes(disk1, g, c) == ClusterBytes(disk, g, c)
    ensures n == 0 ==> more == [] && fat2 == fat1 && Stopped(fat2, g, q, added, offset, total)
    ensures total + n <= |buf| && Progress(disk, fat, disk2, fat2, g, q, added + more, offset, buf, total + n)
  {
    hide Begin, IndexAt, OffsetAt, ClusterSize, FileBytes, Patch, ClusterBytes, FilePatched, Full;
    match PlaceOf(g, |q|, offset)
    case In(_) => ProgressIn(disk, fat, disk1, fat1, disk2, fat2, g, q, added, offset, buf, total, n, more);
    case Past =>
      if added == [] {
        assert q + added == q && added + more == more && buf[0..] == buf;
        ProgressFirst(disk, fat, disk1, fat1, disk2, fat2, g, q, offset, buf, n, more);
      } else {
        ProgressMore(disk, fat, disk1, fat1, disk2, fat2, g, q, added, offset, buf, total, n, more);
      }
    case AtEnd => assert q + added == q;
  }

  lemma ProgressStart(disk: Disk, fat: seq<nat>, g: Geometry, q: seq<nat>, offset: nat, buf: seq<Byte>)
    requires 0 < ClusterSize(g)
    ensures Progress(disk, fat, disk, fat, g, q, [], offset, buf, 0)
  {
    hide FileBytes, IndexAt, OffsetAt;
    if PlaceOf(g, |q|, offset).In? {
      InIsInside(g, |q|, offset);
      FileLength(disk, g, q);
      PatchNone(FileBytes(disk, g, q), offset);
      assert buf[..0] == [];
    }
  }

  lemma InIsInside(g: Geometry, n: nat, pos: nat)
    requires 0 < ClusterSize(g) && IndexAt(g, pos) < n
    ensures pos < Begin(g, n)
  {
    hide Begin, IndexAt, OffsetAt, ClusterSize;
    PosIs(g, pos);
    BeginAdds(g, IndexAt(g, pos), 1);
    BeginAdds(g, IndexAt(g, pos) + 1, n - IndexAt(g, pos) - 1);
  }

  /** A cluster that is free in the table is none of the file's, so it still holds what it held. */
  lemma FreshClusters(disk: Disk, disk1: Disk, g: Geometry, fat1: seq<nat>, chains1: Chains, first1: nat,
                      more: seq<nat>)
    requires ChainsOk(fat1, chains1) && |fat1| <= BAD && OthersKept(disk, disk1, g, ChainOf(chains1, first1))
    requires forall c :: c in more ==> 2 <= c < |fat1| && fat1[c] == 0
    ensures forall c :: c in more ==> ClusterBytes(disk1, g, c) == ClusterBytes(disk, g, c)
  {
    hide ChainsOk, ClusterBytes;
    forall c | c in more
      ensures c !in ChainOf(chains1, first1)
    {
      if first1 in chains1 { LooseCluster(fat1, chains1, first1, c); }
    }
  }

  lemma FrameFacts(disk: Disk, fat: seq<nat>, chains: Chains, disk': Disk, fat': seq<nat>, chains': Chains, g: Geometry,
                   first: nat, first': nat, added: seq<nat>)
    requires StepFrame(disk, fat, chains, disk', fat', chains', g, first, first', added)
    ensures ChainOf(chains', first') == ChainOf(chains, first) + added
    ensures OthersKept(disk, disk', g, ChainOf(chains', first')) && UsedStay(fat, fat')
    ensures forall c :: c in added ==> 2 <= c < |fat| && fat[c] == 0
  {
  }

  /** The loop of `write_at`. */
  method WriteData(v: Volume, first: nat, offset: nat, buf: seq<Byte>) returns (total: nat, first': nat,
                                                                                ghost added: seq<nat>)
    requires Writable(v, first)
    modifies v
    ensures Writable(v, first') && 0 < ClusterSize(v.g)
    ensures StepFrame(old(v.disk), old(v.fat), old(v.chains), v.disk, v.fat, v.chains, v.g, first, first', added)
    ensures Progress(old(v.disk), old(v.fat), v.disk, v.fat, v.g, old(ChainOf(v.chains, first)), added, offset,
                     buf, total)
    ensures total < |buf| ==> Stopped(v.fat, v.g, old(ChainOf(v.chains, first)), added, offset, total)
  {
    hide Represents, CacheOk, ChainsOk, BitmapOk, DataThere, EndAbsent, StepFrame, StepFile, Progress, Stopped, ChainOf,
      ClusterSize, ClusterBytes;
    ghost var q, disk0, fat0, chains0 := ChainOf(v.chains, first), v.disk, v.fat, v.chains;
    SomeSize(v.g);
    total, first', added := 0, first, [];
    FrameRefl(disk0, fat0, chains0, v.g, first);
    ProgressStart(disk0, fat0, v.g, q, offset, buf);
    while total < |buf|
      invariant Writable(v, first') && total <= |buf|
      invariant StepFrame(disk0, fat0, chains0, v.disk, v.fat, v.chains, v.g, first, first', added)
      invariant Progress(disk0, fat0, v.disk, v.fat, v.g, q, added, offset, buf, total)
    {
      ghost var disk1, fat1, chains1 := v.disk, v.fat, v.chains;
      var first1 := first';
      v.SmallTable();
      FrameFacts(disk0, fat0, chains0, disk1, fat1, chains1, v.g, first, first1, added);
      var n;
      ghost var more;
      n, first', more := WriteStep(v, first1, offset + total, buf[total..]);
      FrameFacts(disk1, fat1, chains1, v.disk, v.fat, v.chains, v.g, first1, first', more);
      FreshClusters(disk0, disk1, v.g, fat1, chains1, first1, more);
      FrameTrans(disk0, fat0, chains0, disk1, fat1, chains1, v.disk, v.fat, v.chains, v.g, first, first1, first',
                 added, more);
      ProgressStep(disk0, fat0, disk1, fat1, v.disk, v.fat, v.g, q, added, offset, buf, total, n, more);
      assert n == 0 ==> added + more == added;
      added := added + more;
      if n == 0 {
        return;
      }
      total := total + n;
    }
  }

  // ---------------------------------------------------------------------------
  // write_at
  // ---------------------------------------------------------------------------

  /** The new size is backed by clusters: the write starts inside the chain or right at its end, or in the
      first cluster of an empty file when there is one to be had. */
  ghost predicate StartsWell(fat: seq<nat>, g: Geometry, q: seq<nat>, offset: nat) {
    if q != [] then offset <= Begin(g, |q|) else offset < ClusterSize(g) && (offset == 0 || !Full(fat))
  }

  /** Past the chain the bytes written end before the position they are booked at. */
  lemma PastTheEnd(g: Geometry, n: nat, k: nat, offset: nat, total: nat)
    requires 0 < ClusterSize(g) && 0 < IndexAt(g, offset) && n < IndexAt(g, offset) && 0 < k
    requires Begin(g, k - 1) < OffsetAt(g, offset) + total
    ensures Begin(g, n + k) < offset + total && Begin(g, n) < offset && ClusterSize(g) <= offset
  {
    hide Begin, IndexAt, OffsetAt, ClusterSize;
    PosIs(g, offset);
    BeginAdds(g, n + 1, k - 1);
    BeginAdds(g, n + 1, IndexAt(g, offset) - n - 1);
    BeginAdds(g, n, 1);
    BeginAdds(g, 1, IndexAt(g, offset) - 1);
  }

  lemma InFirstCluster(g: Geometry, offset: nat)
    requires 0 < ClusterSize(g)
    ensures IndexAt(g, offset) == 0 <==> offset < ClusterSize(g)
    ensures IndexAt(g, offset) == 0 ==> OffsetAt(g, offset) == offset
  {
    hide Begin, IndexAt, OffsetAt, ClusterSize;
    PosIs(g, offset);
    BeginAdds(g, 0, 1);
    if 0 < IndexAt(g, offset) { BeginAdds(g, 1, IndexAt(g, offset) - 1); }
  }

  lemma AtEndIs(g: Geometry, n: nat, offset: nat)
    requires 0 < ClusterSize(g) && IndexAt(g, offset) == n
    ensures Begin(g, n) <= offset
  {
    PosIs(g, offset);
  }

  /** The file has clusters once it has got any. */
  predicate HasClusters(chains: Chains, first: nat, added: seq<nat>) {
    first in chains || added != []
  }

  /** The chain backs the new size exactly when the write starts well. */
  lemma SizeFits(disk: Disk, fat: seq<nat>, disk': Disk, fat': seq<nat>, chains: Chains, chains': Chains, g: Geometry,
                 first: nat,
                 first': nat, added: seq<nat>, offset: nat, buf: seq<Byte>, total: nat, size: nat)
    requires 0 < ClusterSize(g) && FileOk(g, chains, first, size) && buf != []
    requires var q := ChainOf(chains, first);
             && Progress(disk, fat, disk', fat', g, q, added, offset, buf, total)
             && (total < |buf| ==> Stopped(fat', g, q, added, offset, total))
             && ChainOf(chains', first') == q + added && (first in chains ==> q != [])
    requires (added == [] ==> first' == first) && (first' in chains' <==> HasClusters(chains, first, added))
    requires forall c :: c in added ==> 2 <= c < |fat| && fat[c] == 0
    ensures var size' := if size < offset + total then offset + total else size;
            FileOk(g, chains', first', size') <==> StartsWell(fat, g, ChainOf(chains, first), offset)
  {
    hide Begin, IndexAt, OffsetAt, ClusterSize, FileBytes, Patch, FilePatched;
    var q := ChainOf(chains, first);
    InFirstCluster(g, offset);
    BeginAdds(g, 0, 1);
    match PlaceOf(g, |q|, offset)
    case In(_) =>
      InIsInside(g, |q|, offset);
    case AtEnd =>
      AtEndIs(g, |q|, offset);
    case Past =>
      if added != [] {
        assert added[0] in added;
        if 0 < IndexAt(g, offset) { PastTheEnd(g, |q|, |added|, offset, total); }
      } else if 0 < IndexAt(g, offset) {
        PastTheStart(g, |q|, offset);
      }
  }

  lemma PastTheStart(g: Geometry, n: nat, offset: nat)
    requires 0 < ClusterSize(g) && n < IndexAt(g, offset)
    ensures Begin(g, n) < offset && ClusterSize(g) <= offset
  {
    PosIs(g, offset);
    BeginAdds(g, 0, 1);
    PastTheEnd(g, n, 1, offset, 1);
  }

  /** Other files keep chain and bytes; a directory may lose the bytes of the entry. */
  ghost predicate OtherFilesBut(disk: Disk, chains: Chains, disk': Disk, chains': Chains, g: Geometry, first: nat,
                                dir: nat) {
    forall b :: b in chains && b != first ==>
      && b in chains' && chains'[b] == chains[b]
      && (dir !in chains[b] ==> FileBytes(disk', g, chains[b]) == FileBytes(disk, g, chains[b]))
  }

  /** Updating the directory entry touches neither the file nor any other. */
  lemma EntryApart(disk: Disk, fat: seq<nat>, chains: Chains, disk1: Disk, fat1: seq<nat>, chains1: Chains, disk2: Disk,
                   g: Geometry, first: nat, first': nat, added: seq<nat>, dir: nat)
    requires StepFrame(disk, fat, chains, disk1, fat1, chains1, g, first, first', added)
    requires ChainsOk(fat, chains) && ChainsOk(fat1, chains1) && OthersKept(disk1, disk2, g, [dir])
    requires 2 <= dir < |fat| && fat[dir] != 0 && dir !in ChainOf(chains, first)
    ensures dir !in ChainOf(chains, first) + added
    ensures ClusterBytes(disk1, g, dir) == ClusterBytes(disk, g, dir)
    ensures FileBytes(disk2, g, ChainOf(chains, first) + added) == FileBytes(disk1, g, ChainOf(chains, first) + added)
    ensures FileBytes(disk2, g, ChainOf(chains, first)) == FileBytes(disk1, g, ChainOf(chains, first))
    ensures OtherFilesBut(disk, chains, disk2, chains1, g, first, dir)
  {
    hide FileBytes, ClusterBytes, ChainsOk;
    var q := ChainOf(chains, first);
    KeptAt(disk, disk1, g, q + added, dir);
    if first' in chains1 { ChainShape(fat1, chains1, first'); }
    assert forall i :: 0 <= i < |q + added| ==> 2 <= (q + added)[i];
    assert forall i :: 0 <= i < |q| ==> q[i] == (q + added)[i];
    OtherFileKept(disk1, disk2, g, [dir], q + added);
    OtherFileKept(disk1, disk2, g, [dir], q);
    forall b | b in chains && b != first && dir !in chains[b]
      ensures FileBytes(disk2, g, chains[b]) == FileBytes(disk, g, chains[b])
    {
      ChainShape(fat, chains, b);
      OtherFileKept(disk1, disk2, g, [dir], chains[b]);
    }
  }

  lemma KeptAt(disk: Disk, disk': Disk, g: Geometry, q: seq<nat>, c: nat)
    requires OthersKept(disk, disk', g, q) && 2 <= c && c !in q
    ensures ClusterBytes(disk', g, c) == ClusterBytes(disk, g, c)
  {
    hide ClusterBytes;
  }

  lemma ProgressSame(disk: Disk, fat: seq<nat>, disk1: Disk, disk2: Disk, fat': seq<nat>, g: Geometry, q: seq<nat>,
                     added: seq<nat>, offset: nat, buf: seq<Byte>, total: nat)
    requires 0 < ClusterSize(g) && Progress(disk, fat, disk1, fat', g, q, added, offset, buf, total)
    requires FileBytes(disk2, g, q + added) == FileBytes(disk1, g, q + added)
    requires FileBytes(disk2, g, q) == FileBytes(disk1, g, q)
    ensures Progress(disk, fat, disk2, fat', g, q, added, offset, buf, total)
  {
    hide FileBytes, Patch, Begin, IndexAt, OffsetAt, ClusterSize;
    assert added == [] ==> q + added == q;
  }

  /** `write_at` of a non-empty buffer at any offset.  Inside the chain the bytes land where they belong and the
      write stops short at the end mark.  Right behind the chain nothing is written.  Further out, or in an
      empty file, new clusters are taken behind the chain and the bytes land there, wherever the offset points;
      behind the first cluster of an empty file the end mark stops the write.  The size goes up to the position
      reached, and it is backed by the chain exactly when the write starts well. */
  method WriteAt(v: Volume, first: nat, size: nat, offset: nat, buf: seq<Byte>, dir: nat, index: nat)
    returns (written: nat, first': nat, size': nat, ghost added: seq<nat>)
    requires Writable(v, first) && FileOk(v.g, v.chains, first, size)
    requires 2 <= dir < |v.fat| && v.fat[dir] != 0 && dir !in ChainOf(v.chains, first)
    modifies v
    ensures Writable(v, first') && 0 < ClusterSize(v.g)
    ensures ChainOf(v.chains, first') == old(ChainOf(v.chains, first)) + added
    ensures added == [] ==> first' == first
    ensures Progress(old(v.disk), old(v.fat), v.disk, v.fat, v.g, old(ChainOf(v.chains, first)), added, offset,
                     buf, written)
    ensures written < |buf| ==> Stopped(v.fat, v.g, old(ChainOf(v.chains, first)), added, offset, written)
    ensures var q := old(ChainOf(v.chains, first));
            q != [] && offset <= Begin(v.g, |q|) ==>
              && added == [] && written == Min(|buf|, Begin(v.g, |q|) - offset)
              && FilePatched(old(v.disk), v.disk, v.g, q, offset, buf[..written])
    ensures size' == if buf != [] && size < offset + written then offset + written else size
    ensures FileOk(v.g, v.chains, first', size') <==>
            buf == [] || StartsWell(old(v.fat), v.g, old(ChainOf(v.chains, first)), offset)
    ensures OtherFilesBut(old(v.disk), old(v.chains), v.disk, v.chains, v.g, first, dir)
    ensures var was := old(ClusterBytes(v.disk, v.g, dir));
            ClusterBytes(v.disk, v.g, dir) ==
            if buf != [] && 32 * index + 32 <= |was| then PatchEntry(was, 32 * index, first', size') else was
    ensures buf != [] && 32 * index + 32 <= ClusterSize(v.g) && size' < WORD_LIMIT && first' < WORD_LIMIT ==>
              EntryReads(ClusterBytes(v.disk, v.g, dir), 32 * index, first', size')
  {
    hide Represents, CacheOk, ChainsOk, BitmapOk, DataThere, EndAbsent, StepFrame, Progress, Stopped, FileBytes,
      ClusterBytes,
      ClusterSize, PatchEntry, FileOk, StartsWell, OthersKept, OtherFilesBut, UsedStay, FilePatched, EntryReads, Begin;
    ghost var q, disk0, fat0, chains0 := ChainOf(v.chains, first), v.disk, v.fat, v.chains;
    SomeSize(v.g);
    written, first', size', added := 0, first, size, [];
    FrameRefl(disk0, fat0, chains0, v.g, first);
    ProgressStart(disk0, fat0, v.g, q, offset, buf);
    v.SmallTable();
    if buf == [] {
      ShortIf(disk0, fat0, disk0, fat0, v.g, q, [], offset, buf, 0);
      KeptNone(disk0, chains0, v.g, first, dir);
      assert q + [] == q;
      return;
    }
    written, first', added := WriteData(v, first, offset, buf);
    if size < offset + written {
      size' := offset + written;
    }
    ghost var disk1 := v.disk;
    FrameFacts(disk0, fat0, chains0, disk1, v.fat, v.chains, v.g, first, first', added);
    ChainNotEmpty(fat0, chains0, first);
    ChainNotEmpty(v.fat, v.chains, first');
    FrameFirst(disk0, fat0, chains0, disk1, v.fat, v.chains, v.g, first, first', added);
    SizeFits(disk0, fat0, disk1, v.fat, chains0, v.chains, v.g, first, first', added, offset, buf, written, size);
    UpdateDirEntry(v, dir, index, first', size');
    EndStillAbsent(disk1, v.disk, v.g);
    EntryApart(disk0, fat0, chains0, disk1, v.fat, v.chains, v.disk, v.g, first, first', added, dir);
    ProgressSame(disk0, fat0, disk1, v.disk, v.fat, v.g, q, added, offset, buf, written);
    ShortIf(disk0, fat0, v.disk, v.fat, v.g, q, added, offset, buf, written);
  }

  lemma ShortIf(disk: Disk, fat: seq<nat>, disk': Disk, fat': seq<nat>, g: Geometry, q: seq<nat>, added: seq<nat>,
                offset: nat, buf: seq<Byte>, total: nat)
    requires 0 < ClusterSize(g) && Progress(disk, fat, disk', fat', g, q, added, offset, buf, total)
    requires total < |buf| ==> Stopped(fat', g, q, added, offset, total)
    ensures q != [] && offset <= Begin(g, |q|) ==>
              && added == [] && total == Min(|buf|, Begin(g, |q|) - offset)
              && FilePatched(disk, disk', g, q, offset, buf[..total])
  {
    hide Progress, Stopped, FilePatched;
    if q != [] && offset <= Begin(g, |q|) {
      ShortWrite(disk, fat, disk', fat', g, q, added, offset, buf, total);
    }
  }

  /** Inside the chain, or right behind it, a write is short exactly by what does not fit. */
  lemma ShortWrite(disk: Disk, fat: seq<nat>, disk': Disk, fat': seq<nat>, g: Geometry, q: seq<nat>, added: seq<nat>,
                   offset: nat, buf: seq<Byte>, total: nat)
    requires 0 < ClusterSize(g) && Progress(disk, fat, disk', fat', g, q, added, offset, buf, total)
    requires (total < |buf| ==> Stopped(fat', g, q, added, offset, total)) && q != [] && offset <= Begin(g, |q|)
    ensures added == [] && total == Min(|buf|, Begin(g, |q|) - offset)
    ensures FilePatched(disk, disk', g, q, offset, buf[..total])
  {
    hide Begin, IndexAt, OffsetAt, ClusterSize, FileBytes;
    StandingIn(g, |q|, offset);
    FileLength(disk, g, q);
    PatchNone(FileBytes(disk, g, q), |FileBytes(disk, g, q)|);
    assert buf[..0] == [];
  }

  lemma KeptNone(disk: Disk, chains: Chains, g: Geometry, first: nat, dir: nat)
    ensures OtherFilesBut(disk, chains, disk, chains, g, first, dir)
  {
  }

  lemma ChainNotEmpty(fat: seq<nat>, chains: Chains, first: nat)
    requires ChainsOk(fat, chains)
    ensures first in chains ==> ChainOf(chains, first) != []
  {
    if first in chains { LastIn(fat, chains, first); }
  }

  lemma FrameFirst(disk: Disk, fat: seq<nat>, chains: Chains, disk': Disk, fat': seq<nat>, chains': Chains, g: Geometry,
                   first: nat, first': nat, added: seq<nat>)
    requires StepFrame(disk, fat, chains, disk', fat', chains', g, first, first', added)
    requires first in chains ==> ChainOf(chains, first) != []
    requires first' in chains' ==> ChainOf(chains', first') != []
    ensures (added == [] ==> first' == first) && (first' in chains' <==> HasClusters(chains, first, added))
  {
  }

  // ---------------------------------------------------------------------------
  // What a later read sees
  // ---------------------------------------------------------------------------

  /** The stretch written reads back, and any stretch beside it reads as before. */
  lemma PatchReads(f: seq<Byte>, offset: nat, buf: seq<Byte>, a: nat, b: nat)
    requires offset + |buf| <= |f| && a <= b <= |f|
    ensures Part(Patch(f, offset, buf), offset, offset + |buf|) == buf
    ensures b <= offset || offset + |buf| <= a ==> Part(Patch(f, offset, buf), a, b) == Part(f, a, b)
  {
    var p := Patch(f, offset, buf);
    assert p[offset..offset + |buf|] == buf;
    if b <= offset {
      assert p[..offset] == f[..offset];
      assert p[a..b] == p[..offset][a..b];
    } else if offset + |buf| <= a {
      var n := offset + |buf|;
      assert p[n..] == f[n..];
      assert p[a..b] == p[n..][a - n..b - n];
    }
  }

  /** A write that starts inside the chain, or at its end, and a read of what was written. */
  method WriteThenRead(v: Volume, first: nat, size: nat, offset: nat, buf: seq<Byte>, dir: nat, index: nat)
    returns (written: nat, out: seq<Byte>)
    requires Writable(v, first) && FileOk(v.g, v.chains, first, size) && 0 < ClusterSize(v.g)
    requires 2 <= dir < |v.fat| && v.fat[dir] != 0 && dir !in ChainOf(v.chains, first)
    requires first in v.chains && v.chains[first] != [] && offset <= Begin(v.g, |v.chains[first]|)
    modifies v
    ensures v.Valid() && written == Min(|buf|, Begin(v.g, |old(v.chains)[first]|) - offset)
    ensures out == buf[..written]
  {
    hide Represents, CacheOk, ChainsOk, BitmapOk, DataThere, EndAbsent, Progress, Stopped, OtherFilesBut, EntryReads,
      PatchEntry, ClusterBytes, FileBytes, Begin, ClusterSize;
    var first', size';
    ghost var added;
    ghost var q, disk := v.chains[first], v.disk;
    written, first', size', added := WriteAt(v, first, size, offset, buf, dir, index);
    assert q + added == q;
    PatchReads(FileBytes(disk, v.g, q), offset, buf[..written], 0, 0);
    out := ReadAt(v, first', size', offset, written);
  }
}
