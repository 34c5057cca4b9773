/** `PageTable::map`, `unmap_no_free` and `unmap_range` over the forest of tables. */
module Mapping {
  import opened Options
  import opened PhysicalMemory
  import opened PageTables

  /** Levels of `va` for which no table exists yet. */
  function Missing(m: Memory, root: Frame, va: nat): nat {
    if WalkPath(m, root, Path1(0, va)).None? then 3
    else if WalkPath(m, root, Path2(0, va)).None? then 2
    else if WalkPath(m, root, Path3(0, va)).None? then 1
    else 0
  }

  /** The page of `va` in space `id` now maps to `w`; every other translation is as before. */
  ghost predicate Remaps(m: Memory, t: Tables, m': Memory, t': Tables, id: nat, va: nat, w: Word)
  {
    forall id', va' ::
      Lookup(m', t', id', va') ==
      if id' == id && PageNumber(va') == PageNumber(va) then w else Lookup(m, t, id', va')
  }

  lemma MissingBound(m: Memory, root: Frame, va: nat)
    ensures Missing(m, root, va) <= 3
  {
  }

  /** Frames that are neither tables nor free keep their contents. */
  ghost predicate PagesKept(m: Memory, t: Tables, free: seq<Frame>, m': Memory) {
    && m'.Keys == m.Keys
    && forall f :: f in m && f !in free && NotATable(t, f) ==> m'[f] == m[f]
  }

  /** A walk from `root` along `p` ends in a free frame. */
  ghost predicate Dangling(m: Memory, free: seq<Frame>, root: Frame, p: Path) {
    Proper(p) && WalkPath(m, root, p).Some? && WalkPath(m, root, p).value in free
  }

  /** A dangling walk rules out every separated forest over that root. */
  lemma DanglingIsUnsound(m: Memory, t: Tables, free: seq<Frame>, p: Path)
    requires Forest(m, t) && Root(Owner(p)) in t && Dangling(m, free, t[Root(Owner(p))], p)
    ensures !Separated(m, t, free)
  {
    WalkFollowsForest(m, t, p);
  }

  /** `t'` has the tables of `t`, and the ones it adds lie in frames of `free`. */
  ghost predicate Grown(t: Tables, free: seq<Frame>, t': Tables) {
    && (forall q :: q in t ==> q in t' && t'[q] == t[q])
    && (forall q :: q in t' && q !in t ==> t'[q] in free)
  }

  /** The step from (m, t, free) to (m', t', free') that links a zeroed table under `p`. */
  lemma LinkedTable(m: Memory, t: Tables, free: seq<Frame>, p: Path, i: nat, m': Memory, t': Tables)
    requires Forest(m, t) && Separated(m, t, free)
    requires p in t && Depth(p) < 3 && i < WORDS && !m[t[p]][i].valid
    requires free != [] && free[0] in m && Distinct(free)
    requires m' == m[free[0] := ZeroPage()][t[p] := m[t[p]][i := TableWord(free[0])]]
    requires t' == t[Sub(p, i) := free[0]]
    ensures Forest(m', t') && Separated(m', t', free[1..]) && SameSlots(m, t, m', t')
    ensures Grown(t, free, t') && PagesKept(m, t, free, m')
  {
    AddTable(m, t, free, p, i, m', t');
    assert Linked(m, t, p, i);
  }

  /** One step of `get_or_create!`: follow a valid entry, else link a zeroed table. */
  method GetOrCreate(pa: PhysicalAllocator, table: Frame, index: nat, ghost t: Tables, ghost p: Path)
    returns (next: Option<Frame>, isNew: bool, ghost t': Tables)
    requires Sound(pa, t) && p in t && t[p] == table && Depth(p) < 3 && index < WORDS
    modifies pa
    ensures isNew <==> Sub(p, index) !in t && old(pa.free) != []
    ensures next.None? <==> Sub(p, index) !in t && old(pa.free) == []
    ensures !isNew ==> pa.mem == old(pa.mem) && pa.free == old(pa.free) && t' == t
    ensures isNew ==>
              && next == Some(old(pa.free)[0]) && pa.free == old(pa.free)[1..]
              && t' == t[Sub(p, index) := old(pa.free)[0]]
    ensures Sound(pa, t') && SameSlots(old(pa.mem), t, pa.mem, t')
    ensures Grown(t, old(pa.free), t') && PagesKept(old(pa.mem), t, old(pa.free), pa.mem)
    ensures next.Some? ==> Sub(p, index) in t' && t'[Sub(p, index)] == next.value
  {
    t' := t;
    isNew := false;
    assert Linked(pa.mem, t, p, index);
    if pa.mem[table][index].valid {
      next := Some(pa.mem[table][index].frame);
    } else {
      next := pa.CreateTable();
      if next.Some? {
        isNew := true;
        pa.Store(table, index, TableWord(next.value));
        t' := t[Sub(p, index) := next.value];
        LinkedTable(old(pa.mem), t, old(pa.free), p, index, pa.mem, t');
      }
    }
  }

  lemma PushReversed(s: seq<Frame>, k: nat, rest: seq<Frame>)
    requires k < |s| && Distinct(s) && s[k] !in rest
    ensures s[k] !in Reversed(s[..k]) + rest
    ensures Reversed(s[..k + 1]) + rest == [s[k]] + (Reversed(s[..k]) + rest)
  {
    assert s[..k + 1] == s[..k] + [s[k]];
    ReversedMembers(s[..k]);
    ReversedSnoc(s[..k], s[k]);
  }

  /** The rollback loop of `map`: give back the tables created by this call. */
  method FreeAll(pa: PhysicalAllocator, created: seq<Frame>)
    requires pa.Valid() && Distinct(created)
    requires forall k :: 0 <= k < |created| ==> created[k] in pa.mem && created[k] !in pa.free
    modifies pa
    ensures pa.Valid() && pa.mem.Keys == old(pa.mem).Keys
    ensures pa.free == Reversed(created) + old(pa.free)
    ensures forall f :: f in old(pa.mem) && f !in created ==> pa.mem[f] == old(pa.mem)[f]
  {
    hide IsFreeList, ListNode, NextFree;
    for k := 0 to |created|
      invariant pa.Valid() && pa.mem.Keys == old(pa.mem).Keys
      invariant pa.free == Reversed(created[..k]) + old(pa.free)
      invariant forall f :: f in old(pa.mem) && f !in created ==> pa.mem[f] == old(pa.mem)[f]
    {
      PushReversed(created, k, old(pa.free));
      pa.FreePage(created[k]);
    }
    assert created[..|created|] == created;
  }

  /** The walk form of `Missing`, read off the forest. */
  lemma MissingInForest(m: Memory, t: Tables, id: nat, va: nat)
    requires Forest(m, t) && Root(id) in t
    ensures Missing(m, t[Root(id)], va) ==
            if Path1(id, va) !in t then 3 else if Path2(id, va) !in t then 2
            else if Path3(id, va) !in t then 1 else 0
    ensures Path3(id, va) in t ==> Path2(id, va) in t
    ensures Path2(id, va) in t ==> Path1(id, va) in t
  {
    WalkFollowsForest(m, t, Path1(id, va));
    WalkFollowsForest(m, t, Path2(id, va));
    WalkFollowsForest(m, t, Path3(id, va));
    WalkIgnoresOwner(m, t[Root(id)], 0, id, va);
  }

  /** One leaf slot changed means one page remapped. */
  lemma OneSlotRemaps(m: Memory, t: Tables, m': Memory, t': Tables, id: nat, va: nat, w: Word)
    requires OneSlot(m, t, m', t', Path3(id, va), Index3(va), w)
    ensures Remaps(m, t, m', t', id, va, w)
  {
    forall id', va'
      ensures Lookup(m', t', id', va') ==
              if id' == id && PageNumber(va') == PageNumber(va) then w else Lookup(m, t, id', va')
    {
      SlotIffPage(id, va, va');
      assert Owner(Path3(id', va')) == id' && Owner(Path3(id, va)) == id;
    }
  }

  function LevelIndex(k: nat, va: nat): (i: nat)
    ensures i < WORDS
  {
    if k == 0 then Index0(va) else if k == 1 then Index1(va) else Index2(va)
  }

  function PathAt(k: nat, id: nat, va: nat): (p: Path)
    requires k <= 3
    ensures Depth(p) == k && Owner(p) == id && Proper(p)
  {
    if k == 0 then Root(id) else if k == 1 then Path1(id, va) else if k == 2 then Path2(id, va) else Path3(id, va)
  }

  /** The walk to a table of the forest survives any change that spares the tables above it. */
  lemma {:induction false} WalkSurvives(m: Memory, t: Tables, m': Memory, p: Path)
    requires Forest(m, t) && p in t && Proper(p) && Root(Owner(p)) in t
    requires forall q :: q in t && Above(q, p) ==> t[q] in m' && m'[t[q]] == m[t[q]]
    ensures WalkPath(m', t[Root(Owner(p))], p) == Some(t[p])
  {
    match p
    case Root(_) =>
    case Sub(u, i) =>
      assert Above(u, p);
      WalkSurvives(m, t, m', u);
      assert Linked(m, t, u, i);
  }

  ghost predicate Above(q: Path, p: Path) {
    p.Sub? && (q == p.up || Above(q, p.up))
  }

  ghost predicate Closed(t: Tables) {
    forall p, i: nat :: Sub(p, i) in t ==> p in t
  }

  lemma {:induction false} AboveIsIn(t: Tables, q: Path, p: Path)
    requires Closed(t) && p in t && Above(q, p)
    ensures q in t
  {
    assert Sub(p.up, p.index) in t;
    if q != p.up {
      AboveIsIn(t, q, p.up);
    }
  }

  lemma SlotsTrans(m: Memory, t: Tables, m1: Memory, t1: Tables, m2: Memory, t2: Tables)
    requires SameSlots(m, t, m1, t1) && SameSlots(m1, t1, m2, t2)
    ensures SameSlots(m, t, m2, t2)
  {
  }

  /** What `map` has done after linking the tables `created`. */
  ghost predicate Progress(m: Memory, t: Tables, free: seq<Frame>, m': Memory, t': Tables, free': seq<Frame>,
                           created: seq<Frame>)
  {
    && free == created + free'
    && Grown(t, free, t') && PagesKept(m, t, free, m') && SameSlots(m, t, m', t')
    && (created == [] ==> m' == m && t' == t)
  }

  lemma ProgressStart(m: Memory, t: Tables, free: seq<Frame>)
    ensures Progress(m, t, free, m, t, free, [])
  {
    assert free == [] + free;
  }

  lemma ProgressStep(m: Memory, t: Tables, free: seq<Frame>, m1: Memory, t1: Tables, free1: seq<Frame>,
                     m2: Memory, t2: Tables, created: seq<Frame>)
    requires Progress(m, t, free, m1, t1, free1, created) && free1 != []
    requires SameSlots(m1, t1, m2, t2) && Grown(t1, free1, t2) && PagesKept(m1, t1, free1, m2)
    ensures Progress(m, t, free, m2, t2, free1[1..], created + [free1[0]])
  {
    SlotsTrans(m, t, m1, t1, m2, t2);
    assert free1 == [free1[0]] + free1[1..];
    assert forall f :: f in free1 ==> f in free;
  }

  /** Which levels of `va` existed before: the first one created here is level `d`. */
  ghost predicate FirstCreated(t: Tables, t': Tables, id: nat, va: nat, k: nat, d: nat, created: seq<Frame>)
    requires k <= 3
  {
    if created == [] then PathAt(k, id, va) in t
    else
      && 1 <= d <= k && |created| == k - d + 1
      && PathAt(d - 1, id, va) in t && PathAt(d, id, va) !in t
      && PathAt(d, id, va) in t' && t'[PathAt(d, id, va)] == created[0]
      && (forall q :: q in t' && q !in t ==> 1 <= Depth(q) <= k && Owner(q) == id)
  }

  lemma FirstCreatedStep(t: Tables, t1: Tables, t2: Tables, f: Frame, id: nat, va: nat, k: nat,
                         d: nat, created: seq<Frame>)
    requires k < 3 && FirstCreated(t, t1, id, va, k, d, created)
    requires t2 == t1[PathAt(k + 1, id, va) := f] && PathAt(k + 1, id, va) !in t1
    requires forall q :: q in t ==> q in t1
    requires created == [] ==> t1 == t
    ensures FirstCreated(t, t2, id, va, k + 1, if created == [] then k + 1 else d, created + [f])
  {
  }

  lemma FirstCreatedKept(t: Tables, t1: Tables, id: nat, va: nat, k: nat, d: nat)
    requires k < 3 && PathAt(k + 1, id, va) in t
    ensures FirstCreated(t, t1, id, va, k + 1, d, [])
  {
  }

  lemma PathSteps(k: nat, id: nat, va: nat)
    requires k <= 3
    ensures PathAt(0, id, va) == Root(id) && PathAt(3, id, va) == Path3(id, va)
    ensures k < 3 ==> PathAt(k + 1, id, va) == Sub(PathAt(k, id, va), LevelIndex(k, va))
  {
  }

  /** The tables `map` creates are the missing ones, and it fails when they outnumber the list. */
  lemma CreatedIsMissing(m: Memory, t: Tables, t1: Tables, id: nat, va: nat, k: nat, d: nat, created: seq<Frame>)
    requires Forest(m, t) && Root(id) in t && k <= 3 && FirstCreated(t, t1, id, va, k, d, created)
    requires created == [] ==> t1 == t
    ensures k == 3 ==> |created| == Missing(m, t[Root(id)], va) && AddedIn(t, t1, id)
    ensures k < 3 && PathAt(k + 1, id, va) !in t1 ==> |created| < Missing(m, t[Root(id)], va)
  {
    MissingInForest(m, t, id, va);
  }

  /** Below a level that was missing, every level is missing. */
  lemma NothingBelow(t: Tables, t1: Tables, id: nat, va: nat, k: nat, d: nat, created: seq<Frame>)
    requires k < 3 && Closed(t) && created != [] && FirstCreated(t, t1, id, va, k, d, created)
    ensures PathAt(k + 1, id, va) !in t1
  {
    assert PathAt(1, id, va) == Sub(PathAt(0, id, va), LevelIndex(0, va));
    assert PathAt(2, id, va) == Sub(PathAt(1, id, va), LevelIndex(1, va));
    assert PathAt(3, id, va) == Sub(PathAt(2, id, va), LevelIndex(2, va));
  }

  /** The tables added lie below the root of space `id`. */
  ghost predicate AddedIn(t: Tables, t': Tables, id: nat) {
    forall q :: q in t' && q !in t ==> 1 <= Depth(q) && Owner(q) == id
  }

  /** Freeing the created tables leaves the entry of the deepest old table pointing at the first. */
  lemma RollbackDangles(m1: Memory, t: Tables, free: seq<Frame>, t': Tables, created: seq<Frame>,
                        id: nat, va: nat, k: nat, d: nat, m': Memory, free': seq<Frame>)
    requires Forest(m1, t') && Root(id) in t && Grown(t, free, t') && k <= 3
    requires created != [] && FirstCreated(t, t', id, va, k, d, created)
    requires Closed(t) && forall q :: q in t ==> t[q] !in created
    requires m'.Keys == m1.Keys && forall f :: f in m1 && f !in created ==> m'[f] == m1[f]
    requires created[0] in free'
    ensures Dangling(m', free', t[Root(id)], PathAt(d, id, va))
  {
    var p := PathAt(d, id, va);
    assert PathAt(d - 1, id, va) in t';
    forall q | q in t' && Above(q, p)
      ensures t'[q] in m' && m'[t'[q]] == m1[t'[q]]
    {
      assert p == Sub(PathAt(d - 1, id, va), LevelIndex(d - 1, va));
      if q != p.up {
        AboveIsIn(t, q, p.up);
      }
      assert q in t;
    }
    WalkSurvives(m1, t', m', p);
  }

  /** What remains to do when the list runs out at level `k`: free the created tables. */
  method FailedWalk(pa: PhysicalAllocator, created: seq<Frame>, ghost id: nat, ghost va: nat, ghost k: nat,
                    ghost d: nat, ghost t: Tables, ghost t': Tables, ghost m0: Memory, ghost free0: seq<Frame>)
    requires Sound(pa, t') && Root(id) in t && Forest(m0, t) && Separated(m0, t, free0)
    requires Progress(m0, t, free0, pa.mem, t', pa.free, created) && pa.free == []
    requires k <= 2 && FirstCreated(t, t', id, va, k, d, created)
    requires Distinct(free0) && forall j :: 0 <= j < |free0| ==> free0[j] in m0
    modifies pa
    ensures free0 == created && Elements(pa.free) == Elements(free0) && pa.Valid() && |pa.free| == |free0|
    ensures created == [] ==> pa.mem == old(pa.mem) && pa.free == []
    ensures created != [] ==> 1 <= d <= 2 && Dangling(pa.mem, pa.free, t[Root(id)], PathAt(d, id, va))
  {
    hide IsFreeList, SameSlots, Dangling, Path1, Path2, Path3, LevelIndex;
    ghost var m1 := pa.mem;
    assert free0 == created + [] == created;
    FreeAll(pa, created);
    ReversedMembers(created);
    if created != [] {
      assert created[0] in created;
      RollbackDangles(m1, t, free0, t', created, id, va, k, d, pa.mem, pa.free);
    }
  }

  /** The three table levels of `map`.  They exist afterwards exactly when the free list covered the
      missing ones; otherwise the tables created here are freed again but stay linked. */
  method EnsureTables(pa: PhysicalAllocator, root: Frame, va: nat, ghost id: nat, ghost t: Tables)
    returns (l3: Option<Frame>, ghost t': Tables)
    requires Sound(pa, t) && Root(id) in t && t[Root(id)] == root
    modifies pa
    ensures l3.Some? <==> |old(pa.free)| >= Missing(old(pa.mem), root, va)
    ensures l3.Some? ==>
              && Sound(pa, t') && Path3(id, va) in t' && t'[Path3(id, va)] == l3.value
              && pa.free == old(pa.free)[Missing(old(pa.mem), root, va)..]
              && Grown(t, old(pa.free), t') && PagesKept(old(pa.mem), t, old(pa.free), pa.mem)
              && SameSlots(old(pa.mem), t, pa.mem, t') && AddedIn(t, t', id)
    ensures l3.None? ==> pa.Valid() && Elements(pa.free) == Elements(old(pa.free)) && |pa.free| == |old(pa.free)|
    ensures l3.None? && old(pa.free) == [] ==> pa.mem == old(pa.mem) && pa.free == []
    ensures l3.None? && old(pa.free) != [] ==>
              exists d :: 1 <= d <= 2 && Dangling(pa.mem, pa.free, root, PathAt(d, id, va))
  {
    hide Forest, Separated, SameSlots, PagesKept, IsFreeList, Missing, Dangling, Closed, Distinct, AddedIn, Elements,
      Index0, Index1, Index2, PathAt, LevelIndex, Path1, Path2, Path3, FirstCreated;
    ghost var m0, free0 := pa.mem, pa.free;
    t' := t;
    var created: seq<Frame> := [];
    var table := root;
    ghost var d := 0;
    WalkStart(pa, t, id, va);
    PathSteps(0, id, va);
    ProgressStart(m0, t, free0);
    for k := 0 to 3
      invariant Sound(pa, t') && PathAt(k, id, va) in t' && t'[PathAt(k, id, va)] == table
      invariant Progress(m0, t, free0, pa.mem, t', pa.free, created)
      invariant FirstCreated(t, t', id, va, k, d, created)
    {
      var next, isNew;
      ghost var t1, m1, free1 := t', pa.mem, pa.free;
      PathSteps(k, id, va);
      next, isNew, t' := GetOrCreate(pa, table, LevelIndex(k, va), t', PathAt(k, id, va));
      if next.None? {
        CreatedIsMissing(m0, t, t', id, va, k, d, created);
        FailedWalk(pa, created, id, va, k, d, t, t', m0, free0);
        return None, t;
      }
      if isNew {
        ProgressStep(m0, t, free0, m1, t1, free1, pa.mem, t', created);
        FirstCreatedStep(t, t1, t', free1[0], id, va, k, d, created);
        if created == [] { d := k + 1; }
        created := created + [next.value];
      } else if created == [] {
        FirstCreatedKept(t, t', id, va, k, d);
      } else {
        NothingBelow(t, t1, id, va, k, d, created);
        assert false;
      }
      table := next.value;
    }
    CreatedIsMissing(m0, t, t', id, va, 3, d, created);
    return Some(table), t';
  }

  lemma WalkStart(pa: PhysicalAllocator, t: Tables, id: nat, va: nat)
    requires Sound(pa, t) && Root(id) in t
    ensures Closed(t) && Distinct(pa.free) && forall j :: 0 <= j < |pa.free| ==> pa.free[j] in pa.mem
    ensures FirstCreated(t, t, id, va, 0, 0, [])
  {
  }

  /** Storing the leaf once the level-3 table exists. */
  lemma MappedLeaf(m: Memory, t: Tables, free: seq<Frame>, m1: Memory, t1: Tables, free1: seq<Frame>,
                   id: nat, va: nat, w: Word, m2: Memory)
    requires Forest(m, t) && Forest(m1, t1) && Separated(m1, t1, free1)
    requires SameSlots(m, t, m1, t1) && Grown(t, free, t1) && PagesKept(m, t, free, m1)
    requires forall f :: f in free1 ==> f in free
    requires w.valid && w.frame !in free && NotATable(t, w.frame)
    requires Path3(id, va) in t1 && m2 == m1[t1[Path3(id, va)] := m1[t1[Path3(id, va)]][Index3(va) := w]]
    ensures Forest(m2, t1) && Separated(m2, t1, free1)
    ensures Remaps(m, t, m2, t1, id, va, w) && PagesKept(m, t, free, m2)
  {
    hide Index0, Index1, Index2, Path1, Path2, Path3;
    SetLeaf(m1, t1, free1, Path3(id, va), Index3(va), w, m2);
    SetLeafSlots(m1, t1, Path3(id, va), Index3(va), w, m2);
    OneSlotRemaps(m, t, m2, t1, id, va, w);
  }

  /** `map`: on success exactly one page is remapped.  It succeeds exactly when the free list covers
      the missing levels.  On failure the free set is restored, and the tables stay sound only when
      the list was empty to begin with: otherwise a walk of `va` ends in a frame that is free again. */
  method MapPage(pa: PhysicalAllocator, root: Frame, va: nat, frame: Frame, flags: Word,
                 ghost id: nat, ghost t: Tables)
    returns (ok: bool, ghost t': Tables)
    requires Sound(pa, t) && Root(id) in t && t[Root(id)] == root
    requires flags.valid && frame !in pa.free && NotATable(t, frame)
    modifies pa
    ensures ok <==> |old(pa.free)| >= Missing(old(pa.mem), root, va)
    ensures ok ==>
              && Sound(pa, t') && Grown(t, old(pa.free), t') && AddedIn(t, t', id)
              && pa.free == old(pa.free)[Missing(old(pa.mem), root, va)..]
              && Remaps(old(pa.mem), t, pa.mem, t', id, va, flags.(frame := frame))
              && PagesKept(old(pa.mem), t, old(pa.free), pa.mem)
    ensures !ok ==> pa.Valid() && Elements(pa.free) == Elements(old(pa.free)) && |pa.free| == |old(pa.free)|
    ensures !ok && old(pa.free) == [] ==> pa.mem == old(pa.mem) && pa.free == []
    ensures !ok && old(pa.free) != [] ==>
              exists d :: 1 <= d <= 2 && Dangling(pa.mem, pa.free, root, PathAt(d, id, va))
  {
    var l3;
    l3, t' := EnsureTables(pa, root, va, id, t);
    if l3.None? {
      return false, t;
    }
    assert l3.value in pa.mem && l3.value !in pa.free;
    hide Forest, Separated, SameSlots, PagesKept, IsFreeList, Missing, Dangling, Grown, Remaps, AddedIn;
    hide Index0, Index1, Index2, Index3, Path1, Path2, Path3, NotATable;
    ghost var m1 := pa.mem;
    pa.Store(l3.value, Index3(va), flags.(frame := frame));
    MappedLeaf(old(pa.mem), t, old(pa.free), m1, t', pa.free, id, va, flags.(frame := frame), pa.mem);
    return true, t';
  }

  /** The leaf word of `va` as the three-level walk of `unmap_*` finds it. */
  method FindLeaf(pa: PhysicalAllocator, root: Frame, va: nat, ghost id: nat, ghost t: Tables)
    returns (l3: Option<Frame>)
    requires Forest(pa.mem, t) && Root(id) in t && t[Root(id)] == root
    ensures l3.Some? <==> Lookup(pa.mem, t, id, va).valid
    ensures l3.Some? ==> Path3(id, va) in t && t[Path3(id, va)] == l3.value
    ensures l3.Some? ==> l3.value in pa.mem && (Separated(pa.mem, t, pa.free) ==> l3.value !in pa.free)
    ensures l3.Some? ==> pa.mem[l3.value][Index3(va)] == Lookup(pa.mem, t, id, va)
  {
    var table := root;
    for k := 0 to 3
      invariant PathAt(k, id, va) in t && t[PathAt(k, id, va)] == table
    {
      PathSteps(k, id, va);
      PathSteps(2, id, va);
      assert Linked(pa.mem, t, PathAt(k, id, va), LevelIndex(k, va));
      var w := pa.mem[table][LevelIndex(k, va)];
      if !w.valid {
        return None;
      }
      table := w.frame;
    }
    return if pa.mem[table][Index3(va)].valid then Some(table) else None;
  }

  /** `unmap_no_free`: the leaf of `va` is cleared and its frame returned. */
  method UnmapNoFree(pa: PhysicalAllocator, root: Frame, va: nat, ghost id: nat, ghost t: Tables)
    returns (r: Option<Frame>)
    requires Sound(pa, t) && Root(id) in t && t[Root(id)] == root
    modifies pa
    ensures Sound(pa, t) && pa.free == old(pa.free)
    ensures Remaps(old(pa.mem), t, pa.mem, t, id, va, ZERO)
    ensures PagesKept(old(pa.mem), t, pa.free, pa.mem)
    ensures r == if Lookup(old(pa.mem), t, id, va).valid then Some(Lookup(old(pa.mem), t, id, va).frame) else None
  {
    var l3 := FindLeaf(pa, root, va, id, t);
    if l3.None? {
      UnmappedRemaps(pa.mem, t, id, va);
      return None;
    }
    r := Some(pa.mem[l3.value][Index3(va)].frame);
    pa.Store(l3.value, Index3(va), ZERO);
    SetLeaf(old(pa.mem), t, pa.free, Path3(id, va), Index3(va), ZERO, pa.mem);
    OneSlotRemaps(old(pa.mem), t, pa.mem, t, id, va, ZERO);
  }

  lemma UnmappedRemaps(m: Memory, t: Tables, id: nat, va: nat)
    requires !Lookup(m, t, id, va).valid
    ensures Remaps(m, t, m, t, id, va, ZERO)
  {
    forall va' | PageNumber(va') == PageNumber(va)
      ensures Lookup(m, t, id, va') == ZERO
    {
      SlotIffPage(id, va, va');
    }
  }

  /** No other leaf slot of any address space names the frame in slot `i` of `p`. */
  ghost predicate Exclusive(m: Memory, t: Tables, p: Path, i: nat) {
    forall q, j: nat :: Depth(q) == 3 && Slot(m, t, q, j).valid && (q != p || j != i) ==>
      Slot(m, t, q, j).frame != Slot(m, t, p, i).frame
  }

  /** Freeing a mapped frame and clearing its leaf is sound exactly when no other leaf names it. */
  lemma FreedLeaf(m: Memory, t: Tables, free: seq<Frame>, head: Option<Frame>, p: Path, i: nat, m': Memory)
    requires Forest(m, t) && Separated(m, t, free) && p in t && Depth(p) == 3 && i < WORDS
    requires m[t[p]][i].valid && m[t[p]][i].frame in m
    requires m' == m[m[t[p]][i].frame := ListNode(m[m[t[p]][i].frame], head)][t[p] := m[t[p]][i := ZERO]]
    ensures Forest(m', t) && OneSlot(m, t, m', t, p, i, ZERO) && Separated(m', t, free)
    ensures Separated(m', t, [m[t[p]][i].frame] + free) <==> Exclusive(m, t, p, i)
  {
    var f := m[t[p]][i].frame;
    assert LeafClear(m, t, free, p, i);
    var m1 := m[f := ListNode(m[f], head)];
    forall q | q in t
      ensures t[q] in m1 && m1[t[q]] == m[t[q]]
    {
      assert t[q] != f;
    }
    assert Forest(m1, t) by {
      forall q, j: nat | q in t && Depth(q) < 3 && j < WORDS
        ensures Linked(m1, t, q, j)
      {
        assert Linked(m, t, q, j);
      }
    }
    assert Separated(m1, t, free) by {
      forall q, j: nat | q in t && Depth(q) == 3 && j < WORDS
        ensures LeafClear(m1, t, free, q, j)
      {
        assert LeafClear(m, t, free, q, j);
      }
    }
    SetLeaf(m1, t, free, p, i, ZERO, m');
    FreedLeafIff(m, t, free, p, i, m');
  }

  lemma FreedLeafIff(m: Memory, t: Tables, free: seq<Frame>, p: Path, i: nat, m': Memory)
    requires Forest(m, t) && Forest(m', t) && Separated(m', t, free) && p in t && Depth(p) == 3 && i < WORDS
    requires m[t[p]][i].valid && NotATable(t, m[t[p]][i].frame)
    requires OneSlot(m, t, m', t, p, i, ZERO)
    ensures Separated(m', t, [m[t[p]][i].frame] + free) <==> Exclusive(m, t, p, i)
  {
    var f := m[t[p]][i].frame;
    if Exclusive(m, t, p, i) {
      forall q, j: nat | q in t && Depth(q) == 3 && j < WORDS
        ensures LeafClear(m', t, [f] + free, q, j)
      {
        assert LeafClear(m', t, free, q, j);
        assert Slot(m', t, q, j) == if q == p && j == i then ZERO else Slot(m, t, q, j);
      }
    } else {
      var q, j: nat :| Depth(q) == 3 && Slot(m, t, q, j).valid && (q != p || j != i) && Slot(m, t, q, j).frame == f;
      assert Slot(m', t, q, j) == Slot(m, t, q, j);
      assert Leaf(m', t, q, j).frame == f && !LeafClear(m', t, [f] + free, q, j);
    }
  }

  /** A slot that is empty, or maps RAM that no other slot maps. */
  ghost predicate Private(m: Memory, t: Tables, p: Path, i: nat) {
    Slot(m, t, p, i).valid ==> Slot(m, t, p, i).frame in m && Exclusive(m, t, p, i)
  }

  /** The tables form a forest and no leaf names one of them; the free list may be anything. */
  ghost predicate Tabled(m: Memory, t: Tables) {
    Forest(m, t) && Separated(m, t, [])
  }

  /** A frame is free and mapped at once, or free twice. */
  ghost predicate Spoiled(m: Memory, t: Tables, free: seq<Frame>) {
    || (exists q, j: nat :: Depth(q) == 3 && Slot(m, t, q, j).valid && Slot(m, t, q, j).frame in free)
    || !Distinct(free)
  }

  lemma SpoiledUnsound(pa: PhysicalAllocator, t: Tables)
    requires Spoiled(pa.mem, t, pa.free)
    ensures !Sound(pa, t)
  {
    if q, j: nat :| Depth(q) == 3 && Slot(pa.mem, t, q, j).valid && Slot(pa.mem, t, q, j).frame in pa.free {
      assert Forest(pa.mem, t) ==> !LeafClear(pa.mem, t, pa.free, q, j);
    }
  }

  lemma SoundTabled(pa: PhysicalAllocator, t: Tables)
    requires Sound(pa, t)
    ensures Tabled(pa.mem, t)
  {
    forall q, j: nat | q in t && Depth(q) == 3 && j < WORDS
      ensures LeafClear(pa.mem, t, [], q, j)
    {
      assert LeafClear(pa.mem, t, pa.free, q, j);
    }
  }

  /** Clearing a slot and pushing its frame does not mend the list. */
  lemma StaysSpoiled(m: Memory, t: Tables, m': Memory, free: seq<Frame>, p: Path, i: nat)
    requires Spoiled(m, t, free) && OneSlot(m, t, m', t, p, i, ZERO)
    ensures Slot(m, t, p, i).valid ==> Spoiled(m', t, [Slot(m, t, p, i).frame] + free)
    ensures !Slot(m, t, p, i).valid ==> Spoiled(m', t, free)
  {
    var free' := if Slot(m, t, p, i).valid then [Slot(m, t, p, i).frame] + free else free;
    if Distinct(free) {
      var q, j: nat :| Depth(q) == 3 && Slot(m, t, q, j).valid && Slot(m, t, q, j).frame in free;
      if q == p && j == i {
        PushTwice(Slot(m, t, p, i).frame, free);
      } else {
        assert Slot(m', t, q, j) == Slot(m, t, q, j);
      }
    } else if Slot(m, t, p, i).valid {
      assert forall k :: 0 <= k < |free| ==> free'[k + 1] == free[k];
      var j, k :| 0 <= j < k < |free| && free[j] == free[k];
      assert free'[j + 1] == free'[k + 1];
    }
  }

  /** One round of `unmap_range`.  It frees the frame whether or not it is shared; a sound state stays sound
      exactly when it was not, and otherwise is spoiled. */
  method UnmapOne(pa: PhysicalAllocator, root: Frame, va: nat, ghost id: nat, ghost t: Tables)
    requires Tabled(pa.mem, t) && Root(id) in t && t[Root(id)] == root
    requires Lookup(pa.mem, t, id, va).valid ==> Lookup(pa.mem, t, id, va).frame in pa.mem
    modifies pa
    ensures Tabled(pa.mem, t) && pa.mem.Keys == old(pa.mem).Keys
    ensures OneSlot(old(pa.mem), t, pa.mem, t, Path3(id, va), Index3(va), ZERO)
    ensures pa.free == if Lookup(old(pa.mem), t, id, va).valid
                       then [Lookup(old(pa.mem), t, id, va).frame] + old(pa.free) else old(pa.free)
    ensures old(Sound(pa, t)) ==>
              pa.Valid() && (Sound(pa, t) <==> Private(old(pa.mem), t, Path3(id, va), Index3(va)))
    ensures old(Sound(pa, t)) && !Sound(pa, t) ==> Spoiled(pa.mem, t, pa.free)
    ensures old(Spoiled(pa.mem, t, pa.free)) ==> Spoiled(pa.mem, t, pa.free)
  {
    hide Index0, Index1, Index2, Index3, Path1, Path2, Path3, Spoiled, IsFreeList, Exclusive, OneSlot;
    ghost var m, free, p, i := pa.mem, pa.free, Path3(id, va), Index3(va);
    assert Depth(p) == 3;
    var l3 := FindLeaf(pa, root, va, id, t);
    if l3.None? {
      NothingCleared(m, t, p, i);
      if Spoiled(m, t, free) { StaysSpoiled(m, t, m, free, p, i); }
      return;
    }
    var f := pa.mem[l3.value][Index3(va)].frame;
    ghost var m': Memory := m[f := ListNode(m[f], pa.head)][l3.value := m[l3.value][i := ZERO]];
    FreedLeaf(m, t, [], pa.head, p, i, m');
    if Sound(pa, t) {
      LeafApart(pa, t, p, i);
      FreedLeaf(m, t, free, pa.head, p, i, m');
      if !Exclusive(m, t, p, i) { SharedSpoils(m, t, m', free, p, i); }
    }
    if Spoiled(m, t, free) { StaysSpoiled(m, t, m', free, p, i); }
    NotItsOwn(m, t, p, i);
    pa.FreePage(f);
    pa.Store(l3.value, Index3(va), ZERO);
    assert pa.mem == m';
  }

  lemma NotItsOwn(m: Memory, t: Tables, p: Path, i: nat)
    requires Tabled(m, t) && p in t && Depth(p) == 3 && i < WORDS && m[t[p]][i].valid
    ensures m[t[p]][i].frame != t[p]
  {
    assert LeafClear(m, t, [], p, i);
  }

  lemma NothingCleared(m: Memory, t: Tables, p: Path, i: nat)
    requires !Slot(m, t, p, i).valid
    ensures OneSlot(m, t, m, t, p, i, ZERO)
  {
  }

  lemma LeafApart(pa: PhysicalAllocator, t: Tables, p: Path, i: nat)
    requires Sound(pa, t) && p in t && Depth(p) == 3 && i < WORDS && pa.mem[t[p]][i].valid
    ensures pa.mem[t[p]][i].frame !in pa.free && t[p] !in pa.free && pa.mem[t[p]][i].frame != t[p]
  {
    assert LeafClear(pa.mem, t, pa.free, p, i);
  }

  lemma SharedSpoils(m: Memory, t: Tables, m': Memory, free: seq<Frame>, p: Path, i: nat)
    requires OneSlot(m, t, m', t, p, i, ZERO) && !Exclusive(m, t, p, i)
    ensures Spoiled(m', t, [Slot(m, t, p, i).frame] + free)
  {
    var q, j: nat :| Depth(q) == 3 && Slot(m, t, q, j).valid && (q != p || j != i)
                     && Slot(m, t, q, j).frame == Slot(m, t, p, i).frame;
    assert Slot(m', t, q, j) == Slot(m, t, q, j);
  }

  /** `va'` lies in one of the `count` pages that start at `va`. */
  ghost predicate InRange(va': nat, va: nat, count: nat) {
    exists k: nat :: k < count && PageNumber(va') == PageNumber(va + 0x1000 * k)
  }

  ghost predicate RangeUnmapped(m: Memory, t: Tables, m': Memory, id: nat, va: nat, count: nat) {
    forall q, j: nat :: Depth(q) == 3 ==>
      Slot(m', t, q, j) ==
      if exists k: nat :: k < count && q == Path3(id, va + 0x1000 * k) && j == Index3(va + 0x1000 * k)
      then ZERO else Slot(m, t, q, j)
  }

  lemma RangeStep(m: Memory, t: Tables, m1: Memory, m2: Memory, id: nat, va: nat, n: nat)
    requires RangeUnmapped(m, t, m1, id, va, n)
    requires OneSlot(m1, t, m2, t, Path3(id, va + 0x1000 * n), Index3(va + 0x1000 * n), ZERO)
    ensures RangeUnmapped(m, t, m2, id, va, n + 1)
  {
  }

  /** Unmapping pages only makes the remaining slots more private. */
  lemma StillPrivate(m: Memory, t: Tables, m': Memory, id: nat, va: nat, n: nat, p: Path, i: nat)
    requires RangeUnmapped(m, t, m', id, va, n) && m'.Keys == m.Keys && Depth(p) == 3 && Private(m, t, p, i)
    ensures Private(m', t, p, i)
  {
  }

  /** The slot form of the range, read as addresses. */
  lemma RangeLookups(m: Memory, t: Tables, m': Memory, id: nat, va: nat, n: nat)
    requires RangeUnmapped(m, t, m', id, va, n)
    ensures forall id', va' :: Lookup(m', t, id', va') ==
              if id' == id && InRange(va', va, n) then ZERO else Lookup(m, t, id', va')
  {
    forall id', va'
      ensures Lookup(m', t, id', va') == if id' == id && InRange(va', va, n) then ZERO else Lookup(m, t, id', va')
    {
      var p, i := Path3(id', va'), Index3(va');
      assert Owner(p) == id';
      forall k: nat | k < n
        ensures id' == id && PageNumber(va') == PageNumber(va + 0x1000 * k)
           <==> p == Path3(id, va + 0x1000 * k) && i == Index3(va + 0x1000 * k)
      {
        assert Owner(Path3(id, va + 0x1000 * k)) == id;
        SlotIffPage(id, va', va + 0x1000 * k);
      }
    }
  }

  /** The frame behind one page, if it is mapped. */
  function FrameAt(m: Memory, t: Tables, id: nat, va: nat): set<Frame> {
    if Lookup(m, t, id, va).valid then {Lookup(m, t, id, va).frame} else {}
  }

  /** The frames behind `n` pages from `va` on. */
  function Mapped(m: Memory, t: Tables, id: nat, va: nat, n: nat): set<Frame> {
    if n == 0 then {} else Mapped(m, t, id, va, n - 1) + FrameAt(m, t, id, va + 0x1000 * (n - 1))
  }

  lemma {:induction false} MappedHas(m: Memory, t: Tables, id: nat, va: nat, n: nat, k: nat)
    requires k < n
    ensures FrameAt(m, t, id, va + 0x1000 * k) <= Mapped(m, t, id, va, n)
  {
    hide FrameAt;
    if k < n - 1 { MappedHas(m, t, id, va, n - 1, k); }
  }

  /** A page of the range that occurred before is already unmapped, and its frame already counted. */
  lemma MappedStep(m: Memory, t: Tables, m1: Memory, id: nat, va: nat, n: nat)
    requires RangeUnmapped(m, t, m1, id, va, n)
    ensures Mapped(m, t, id, va, n + 1) == Mapped(m, t, id, va, n) + FrameAt(m1, t, id, va + 0x1000 * n)
  {
    hide Mapped, Path1, Path2, Path3, Index3;
    var p, i := Path3(id, va + 0x1000 * n), Index3(va + 0x1000 * n);
    MappedNext(m, t, id, va, n);
    if k: nat :| k < n && p == Path3(id, va + 0x1000 * k) && i == Index3(va + 0x1000 * k) {
      MappedHas(m, t, id, va, n, k);
    }
  }

  lemma MappedNext(m: Memory, t: Tables, id: nat, va: nat, n: nat)
    ensures Mapped(m, t, id, va, n + 1) == Mapped(m, t, id, va, n) + FrameAt(m, t, id, va + 0x1000 * n)
  {
  }

  lemma PushedElements(free: seq<Frame>, f: Frame)
    ensures Elements([f] + free) == Elements(free) + {f}
  {
  }

  /** The slot of page `k` of a range. */
  ghost predicate PagePrivate(m: Memory, t: Tables, id: nat, va: nat, k: nat) {
    Private(m, t, Path3(id, va + 0x1000 * k), Index3(va + 0x1000 * k))
  }

  ghost predicate AllPrivate(m: Memory, t: Tables, id: nat, va: nat, count: nat) {
    forall k: nat :: k < count ==> PagePrivate(m, t, id, va, k)
  }

  /** While the pages before it were private, the next page is private now if and only if it was. */
  lemma PrivateBack(m: Memory, t: Tables, m1: Memory, id: nat, va: nat, n: nat)
    requires RangeUnmapped(m, t, m1, id, va, n) && m1.Keys == m.Keys
    requires AllPrivate(m, t, id, va, n)
    ensures PagePrivate(m1, t, id, va, n) <==> PagePrivate(m, t, id, va, n)
  {
    hide Index0, Index1, Index2, Index3, Path3;
    var p, i := Path3(id, va + 0x1000 * n), Index3(va + 0x1000 * n);
    assert Depth(p) == 3;
    if PagePrivate(m, t, id, va, n) {
      StillPrivate(m, t, m1, id, va, n, p, i);
    } else if exists k: nat :: k < n && p == Path3(id, va + 0x1000 * k) && i == Index3(va + 0x1000 * k) {
      var k: nat :| k < n && p == Path3(id, va + 0x1000 * k) && i == Index3(va + 0x1000 * k);
      assert PagePrivate(m, t, id, va, k);
    } else if Slot(m, t, p, i).frame in m {
      var q, j: nat :| Depth(q) == 3 && Slot(m, t, q, j).valid && (q != p || j != i)
                       && Slot(m, t, q, j).frame == Slot(m, t, p, i).frame;
      forall k: nat | k < n
        ensures q != Path3(id, va + 0x1000 * k) || j != Index3(va + 0x1000 * k)
      {
        assert PagePrivate(m, t, id, va, k);
      }
      assert Slot(m1, t, q, j) == Slot(m, t, q, j) && Slot(m1, t, p, i) == Slot(m, t, p, i);
    }
  }

  /** `unmap_range`: exactly the range loses its mapping, and exactly the frames behind it are pushed on the
      free list.  The result is sound exactly when no page of the range was mapped elsewhere. */
  method UnmapRange(pa: PhysicalAllocator, root: Frame, va: nat, count: nat, ghost id: nat, ghost t: Tables)
    requires Sound(pa, t) && Root(id) in t && t[Root(id)] == root
    requires forall k: nat :: k < count ==> FrameAt(pa.mem, t, id, va + 0x1000 * k) <= pa.mem.Keys
    modifies pa
    ensures Sound(pa, t) <==> AllPrivate(old(pa.mem), t, id, va, count)
    ensures Forest(pa.mem, t)
    ensures forall id', va' :: Lookup(pa.mem, t, id', va') ==
              if id' == id && InRange(va', va, count) then ZERO else Lookup(old(pa.mem), t, id', va')
    ensures Elements(pa.free) == Elements(old(pa.free)) + Mapped(old(pa.mem), t, id, va, count)
  {
    hide Forest, Separated, IsFreeList, Exclusive, OneSlot, Index0, Index1, Index2, Index3, LeafClear, RangeUnmapped,
      Private, InRange, Path3, Mapped, Elements, Lookup, Spoiled, PagePrivate, Distinct, FrameAt;
    RangeStart(pa.mem, t, id, va);
    SoundTabled(pa, t);
    ghost var m := pa.mem;
    for i := 0 to count
      invariant Tabled(pa.mem, t) && pa.mem.Keys == m.Keys
      invariant RangeUnmapped(m, t, pa.mem, id, va, i)
      invariant Elements(pa.free) == Elements(old(pa.free)) + Mapped(m, t, id, va, i)
      invariant if AllPrivate(m, t, id, va, i) then Sound(pa, t) else Spoiled(pa.mem, t, pa.free)
    {
      ghost var m1 := pa.mem;
      MappedStep(m, t, m1, id, va, i);
      PushedElements(pa.free, Lookup(m1, t, id, va + 0x1000 * i).frame);
      RangeFrame(m, t, m1, id, va, i);
      if AllPrivate(m, t, id, va, i) { PrivateBack(m, t, m1, id, va, i); }
      PrivateIs(m1, t, id, va, i);
      UnmapOne(pa, root, va + 0x1000 * i, id, t);
      RangeStep(m, t, m1, pa.mem, id, va, i);
      assert AllPrivate(m, t, id, va, i + 1) <==> AllPrivate(m, t, id, va, i) && PagePrivate(m, t, id, va, i);
    }
    if !AllPrivate(m, t, id, va, count) { SpoiledUnsound(pa, t); }
    RangeLookups(m, t, pa.mem, id, va, count);
  }

  lemma PrivateIs(m: Memory, t: Tables, id: nat, va: nat, k: nat)
    ensures PagePrivate(m, t, id, va, k) == Private(m, t, Path3(id, va + 0x1000 * k), Index3(va + 0x1000 * k))
  {
  }

  /** What is still mapped of the range was mapped before. */
  lemma RangeFrame(m: Memory, t: Tables, m1: Memory, id: nat, va: nat, n: nat)
    requires RangeUnmapped(m, t, m1, id, va, n) && m1.Keys == m.Keys && FrameAt(m, t, id, va + 0x1000 * n) <= m.Keys
    ensures FrameAt(m1, t, id, va + 0x1000 * n) <= m1.Keys
    ensures Lookup(m1, t, id, va + 0x1000 * n).valid ==> Lookup(m1, t, id, va + 0x1000 * n).frame in m1
    ensures FrameAt(m1, t, id, va + 0x1000 * n) ==
            if Lookup(m1, t, id, va + 0x1000 * n).valid then {Lookup(m1, t, id, va + 0x1000 * n).frame} else {}
  {
    hide Index0, Index1, Index2, Index3, Path3;
    assert Depth(Path3(id, va + 0x1000 * n)) == 3;
  }

  lemma RangeStart(m: Memory, t: Tables, id: nat, va: nat)
    ensures RangeUnmapped(m, t, m, id, va, 0) && Mapped(m, t, id, va, 0) == {}
  {
  }
}
