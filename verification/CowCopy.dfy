/** `cow_copy_user` with both of its ends: the shared address space, and the rollback.

    The rollback is `free_partial_copy`, which frees every page the half-built child maps.  Once a page of the
    parent has been shared that page goes to the free list while the parent still maps it.
 */
module CowCopy {
  import opened Options
  import opened ForkGuard
  import opened PhysicalMemory
  import opened PageTables
  import opened Mapping
  import opened TableCount
  import opened TableCopy
  import opened TableCensus
  import opened CowPages
  import opened CopyOnWrite
  import opened DeepCopy

  /** Some address translates to a frame that is on the free list. */
  ghost predicate MapsFree(m: Memory, free: seq<Frame>, root: Frame) {
    exists va :: Translate(m, root, va).valid && Translate(m, root, va).frame in free
  }

  /** No forest whatever makes such a memory sound. */
  lemma MapsFreeUnsound(pa: PhysicalAllocator, t: Tables, id: nat)
    requires Root(id) in t && MapsFree(pa.mem, pa.free, t[Root(id)])
    ensures !Sound(pa, t)
  {
    hide Forest, Separated, IsFreeList, Good, Slot, Translate, Path3, Index3;
    if Sound(pa, t) {
      FreeListFacts(pa, t);
      var va :| Translate(pa.mem, t[Root(id)], va).valid && Translate(pa.mem, t[Root(id)], va).frame in pa.free;
      LookupIsTranslate(pa.mem, t, id, va);
      LeafFrame(Now(pa, t), id, va);
    }
  }

  /** No forest over this root, whatever its tables, makes the state of `pa` sound. */
  ghost predicate Ruined(pa: PhysicalAllocator, root: Frame)
    reads pa
  {
    forall t: Tables, id: nat :: Root(id) in t && t[Root(id)] == root ==> !Sound(pa, t)
  }

  lemma PageRuins(pa: PhysicalAllocator, root: Frame)
    requires MapsFree(pa.mem, pa.free, root)
    ensures Ruined(pa, root)
  {
    hide Sound, MapsFree;
    forall t: Tables, id: nat | Root(id) in t && t[Root(id)] == root
      ensures !Sound(pa, t)
    {
      MapsFreeUnsound(pa, t, id);
    }
  }

  /** A walk does not depend on the name of the space. */
  lemma {:induction false} WalkRebased(m: Memory, root: Frame, p: Path, c: nat)
    ensures WalkPath(m, root, Rebase(p, c)) == WalkPath(m, root, p)
    ensures Proper(p) ==> Proper(Rebase(p, c))
  {
    RebaseFacts(p, c);
    if p.Sub? { WalkRebased(m, root, p.up, c); }
  }

  /** A walk that ends in a free frame ruins the root it starts from. */
  lemma WalkRuins(pa: PhysicalAllocator, root: Frame, p: Path)
    requires Dangling(pa.mem, pa.free, root, p)
    ensures Ruined(pa, root)
  {
    forall t: Tables, id: nat | Root(id) in t && t[Root(id)] == root
      ensures !Sound(pa, t)
    {
      if Sound(pa, t) {
        RebaseFacts(p, id);
        WalkRebased(pa.mem, root, p, id);
        DanglingIsUnsound(pa.mem, t, pa.free, Rebase(p, id));
      }
    }
  }

  lemma {:induction false} TablesProper(s: State, q: Path)
    requires Good(s) && q in s.t
    ensures Proper(q) && Root(Owner(q)) in s.t
  {
    match q
    case Root(_) =>
    case Sub(u, i) =>
      assert u in s.t && i < WORDS && Depth(q) <= 3;
      TablesProper(s, u);
  }

  /** The tables of another space are not among what the rollback of `c` frees. */
  lemma OtherTable(s: State, c: nat, q: Path)
    requires Good(s) && Root(c) in s.t && q in s.t && Owner(q) != c
    ensures s.t[q] != s.t[Root(c)] && !Below(s, Root(c), WORDS, s.t[q])
  {
    assert Owner(Root(c)) == c;
    if TableBelow(s, Root(c), WORDS, s.t[q]) {
      var r :| r in s.t && Under(Root(c), r) && r != Root(c) && Branch(Root(c), r) < WORDS && s.t[r] == s.t[q];
      UnderFacts(Root(c), r);
      SameTable(s, q, r);
    } else if LeafBelow(s, Root(c), WORDS, s.t[q]) {
      var r, k: nat :| IsLeaf(s, c, r, k) && Under(Root(c), r) && Passed(Root(c), r, k, WORDS)
                       && SlotOf(s, r, k).frame == s.t[q];
      LeafIsNoTable(s, c, r, k, q);
    }
  }

  /** So every walk in another space goes on as before. */
  lemma {:induction false} OtherWalk(s: State, c: nat, m': Memory, free': seq<Frame>, q: Path)
    requires Good(s) && Root(c) in s.t && RolledBack(s, c, m', free') && q in s.t && Owner(q) != c
    ensures Root(Owner(q)) in s.t && WalkPath(m', s.t[Root(Owner(q))], q) == Some(s.t[q])
    ensures s.t[q] in s.m && s.t[q] in m' && m'[s.t[q]] == s.m[s.t[q]]
  {
    hide Below;
    OtherTable(s, c, q);
    match q
    case Root(_) =>
    case Sub(u, i) =>
      assert u in s.t && i < WORDS && Depth(u) < 3;
      OtherWalk(s, c, m', free', u);
      assert Linked(s.m, s.t, u, i);
  }

  /** A page the child maps is freed. */
  lemma SharedIsBelow(s: State, c: nat, q: Path, j: nat)
    requires Good(s) && Root(c) in s.t && IsLeaf(s, c, q, j)
    ensures Below(s, Root(c), WORDS, SlotOf(s, q, j).frame)
  {
    hide Good;
    UnderRoot(q);
    UnderFacts(Root(c), q);
    UnderIsIn(s, Sub(Root(c), Branch(Root(c), q)), q);
    NoFarEntry(s, Root(c), Branch(Root(c), q));
    assert Passed(Root(c), q, j, WORDS);
    assert LeafBelow(s, Root(c), WORDS, SlotOf(s, q, j).frame);
  }

  /** Every page of another space is still mapped. */
  lemma PageSurvives(s: State, c: nat, m': Memory, free': seq<Frame>, q: Path, j: nat)
    requires Good(s) && Root(c) in s.t && RolledBack(s, c, m', free')
    requires q in s.t && Depth(q) == 3 && Owner(q) != c && SlotOf(s, q, j).valid
    ensures Root(Owner(q)) in s.t
    ensures exists va :: Translate(m', s.t[Root(Owner(q))], va) == SlotOf(s, q, j)
  {
    hide Below, Good, Index0, Index1, Index2, Index3, PathNumber, RolledBack, Path3;
    TablesProper(s, q);
    SlotOfAddress(q, j);
    OtherWalk(s, c, m', free', q);
    var va := (PathNumber(q) * 512 + j) * 0x1000;
    WalkIgnoresOwner(m', s.t[Root(Owner(q))], 0, Owner(q), va);
    assert Translate(m', s.t[Root(Owner(q))], va) == SlotOf(s, q, j);
  }

  /** After a rollback past the first shared page the parent maps a free frame. */
  lemma SharedIsFree(s: State, parent: nat, c: nat, m': Memory, free': seq<Frame>)
    requires Good(s) && Root(c) in s.t && Root(parent) in s.t && parent != c && SharesPage(s, parent, c)
    requires RolledBack(s, c, m', free')
    ensures MapsFree(m', free', s.t[Root(parent)])
  {
    hide Good, Below, Translate, Slot;
    var q, j: nat :| IsLeaf(s, parent, q, j) && SlotOf(s, Rebase(q, c), j) == SlotOf(s, q, j);
    RebaseFacts(q, c);
    assert IsLeaf(s, c, Rebase(q, c), j);
    SharedIsBelow(s, c, Rebase(q, c), j);
    LeafTable(s, q, j);
    PageSurvives(s, c, m', free', q, j);
  }

  lemma LeafTable(s: State, q: Path, j: nat)
    requires SlotOf(s, q, j).valid
    ensures q in s.t && j < WORDS
  {
  }

  /** A space whose addresses all translate to RAM has only RAM in its slots. */
  lemma PagesBacked(s: State, id: nat)
    requires Good(s) && forall va :: L(s, id, va).valid ==> L(s, id, va).frame in s.m
    ensures Backed(s, id)
  {
    hide Good, Slot;
    forall q, j: nat | IsLeaf(s, id, q, j)
      ensures SlotOf(s, q, j).frame in s.m
    {
      LeafTable(s, q, j);
      TablesProper(s, q);
      SlotOfAddress(q, j);
      assert L(s, id, (PathNumber(q) * 512 + j) * 0x1000) == SlotOf(s, q, j);
    }
  }

  /** `cow_copy_user`.  It succeeds exactly when the list holds a frame for the root and one for every user
      table; the child's lower half and the parent's are then the same frames, write-protected and marked
      where they were writable, and no page changed.  When it fails, everything is as before exactly if the
      list was too short for the root and the tables on the way to the first page.  Otherwise the parent is
      left mapping free frames. */
  method CowCopyUser(pa: PhysicalAllocator, root: Frame, ghost parent: nat, ghost c: nat, ghost t: Tables)
    returns (r: Option<Frame>, shared: bool, ghost t': Tables)
    requires Sound(pa, t) && Root(parent) in t && t[Root(parent)] == root && NewSpace(t, c)
    requires Backed(Now(pa, t), parent)
    modifies pa
    ensures r.Some? <==> ForkFits(|old(pa.free)|, old(|UserTables(Now(pa, t), parent)|))
    ensures r.Some? ==>
              && pa.Valid() && Root(c) in t' && t'[Root(c)] == r.value
              && Copying(Lazy, old(Now(pa, t)), Now(pa, t'), c)
              && Forked(old(Now(pa, t)), Now(pa, t'), parent, c)
    ensures r.None? ==> (Sound(pa, t) <==> |old(pa.free)| < 1 + Lead(old(pa.mem), t, Root(parent), 256))
    ensures r.None? ==> (Sound(pa, t) <==> !shared)
    ensures r.None? && Sound(pa, t) ==>
              Elements(pa.free) == Elements(old(pa.free)) && SameOutside(old(pa.mem), old(pa.free), pa.mem)
    ensures r.None? && !Sound(pa, t) ==> MapsFree(pa.mem, pa.free, root)
  {
    ghost var s0 := Now(pa, t);
    FreeListFacts(pa, t);
    assert Owner(Root(parent)) == parent && parent != c;
    UserCost(s0, parent);
    LeadIsCost(s0.m, t, Root(parent), 256);
    hide Good, Forest, Separated, IsFreeList, Copied, EmptyFrom, Framed, FreshLeaves, Accounted, Untouched, NewSpace,
      RootAdded, Forked, PagesKept, SameSlots, Distinct, SameOutside, RolledBack, OwnLeaves, Backed, SharesPage,
      MapsFree, Cost, Lead, Leafy, UserTables, Elements;
    t', shared := t, false;
    r := pa.CreateTable();
    if r.None? {
      NothingHappened(s0);
      return;
    }
    StartCopying(Lazy, s0, parent, c);
    StartCopying(Eager, s0, parent, c);
    AddRootGood(s0, c);
    RootAddedIs(s0, c);
    EagerPhase(s0, RootAdded(s0, c), parent, c);
    var ok;
    ok, t', shared := CopyTable(pa, root, r.value, 0, Lazy, s0, Root(parent), c, t[Root(c) := r.value], false);
    ghost var s := Now(pa, t');
    RootStays(s0, s, c, parent, t);
    if ok {
      ForkedLookups(s0, s, parent, c);
      return;
    }
    PhaseBacked(s0, s, parent, c, shared);
    Rollback(pa, r.value, s, c);
    if shared {
      ParentStays(s0, s, parent, c);
      SharedIsFree(s, parent, c, pa.mem, pa.free);
      MapsFreeUnsound(pa, t, parent);
    } else {
      OwnFrames(s0, s, c);
      AfterRollback(s0, s, c, pa.mem, pa.free);
      ListFacts(pa);
      StillGood(s0, pa.mem, pa.free);
      SoundAgain(pa, t);
    }
    r, t' := None, t;
  }

  lemma ParentStays(s0: State, s: State, parent: nat, c: nat)
    requires Building(s0, s, c) && Root(parent) in s0.t
    ensures Root(parent) in s.t && s.t[Root(parent)] == s0.t[Root(parent)]
  {
  }

  lemma RootAddedIs(s: State, c: nat)
    requires s.free != []
    ensures RootAdded(s, c) == State(s.m[s.free[0] := ZeroPage()], s.t[Root(c) := s.free[0]], s.free[1..])
    ensures Rebase(Root(c), c) == Root(c)
    ensures s.free[0] in RootAdded(s, c).m
  {
  }
}
