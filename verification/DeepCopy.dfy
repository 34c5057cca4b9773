/** `deep_copy_user` with its rollback `free_partial_copy`. */
module DeepCopy {
  import opened Options
  import opened PhysicalMemory
  import opened PageTables
  import opened Mapping
  import opened TableCount
  import opened TableCopy
  import opened TableCensus

  // ---------------------------------------------------------------------------
  // What the rollback frees
  // ---------------------------------------------------------------------------

  /** `f` is a table below `p` reached through one of its first `n` entries. */
  ghost predicate TableBelow(s: State, p: Path, n: nat, f: Frame) {
    exists q :: q in s.t && Under(p, q) && q != p && Branch(p, q) < n && s.t[q] == f
  }

  /** `f` is a page mapped at or below `p` in a slot the loop over `p` has passed at count `n`. */
  ghost predicate LeafBelow(s: State, p: Path, n: nat, f: Frame) {
    exists q, j: nat :: IsLeaf(s, Owner(p), q, j) && Under(p, q) && Passed(p, q, j, n) && SlotOf(s, q, j).frame == f
  }

  ghost predicate Below(s: State, p: Path, n: nat, f: Frame) {
    TableBelow(s, p, n, f) || LeafBelow(s, p, n, f)
  }

  /** The entry `i` of `p` adds the frame it names and everything below that. */
  ghost predicate EntryAdds(s: State, p: Path, i: nat, f: Frame) {
    if Depth(p) == 3 then IsLeaf(s, Owner(p), p, i) && SlotOf(s, p, i).frame == f
    else Sub(p, i) in s.t && (f == s.t[Sub(p, i)] || Below(s, Sub(p, i), WORDS, f))
  }

  lemma NothingBelowZero(s: State, p: Path, f: Frame)
    ensures !Below(s, p, 0, f)
  {
  }

  lemma TableBelowStep(s: State, p: Path, i: nat, f: Frame)
    requires Good(s) && Depth(p) < 3 && TableBelow(s, p, i + 1, f)
    ensures TableBelow(s, p, i, f) || (Sub(p, i) in s.t && (f == s.t[Sub(p, i)] || TableBelow(s, Sub(p, i), WORDS, f)))
  {
    var q :| q in s.t && Under(p, q) && q != p && Branch(p, q) < i + 1 && s.t[q] == f;
    if Branch(p, q) == i {
      UnderFacts(p, q);
      UnderIsIn(s, Sub(p, i), q);
      if q != Sub(p, i) {
        UnderFacts(Sub(p, i), q);
        UnderIsIn(s, Sub(Sub(p, i), Branch(Sub(p, i), q)), q);
        NoFarEntry(s, Sub(p, i), Branch(Sub(p, i), q));
        assert TableBelow(s, Sub(p, i), WORDS, f);
      }
    } else {
      assert TableBelow(s, p, i, f);
    }
  }

  lemma LeafBelowStep(s: State, p: Path, i: nat, f: Frame)
    requires Good(s) && Depth(p) < 3 && LeafBelow(s, p, i + 1, f)
    ensures LeafBelow(s, p, i, f) || (Sub(p, i) in s.t && LeafBelow(s, Sub(p, i), WORDS, f))
  {
    var q, j: nat :| IsLeaf(s, Owner(p), q, j) && Under(p, q) && Passed(p, q, j, i + 1) && SlotOf(s, q, j).frame == f;
    if Branch(p, q) == i {
      UnderFacts(p, q);
      UnderIsIn(s, Sub(p, i), q);
      if Depth(Sub(p, i)) < 3 {
        UnderFacts(Sub(p, i), q);
        UnderIsIn(s, Sub(Sub(p, i), Branch(Sub(p, i), q)), q);
        NoFarEntry(s, Sub(p, i), Branch(Sub(p, i), q));
      }
      assert Passed(Sub(p, i), q, j, WORDS);
    } else {
      assert Passed(p, q, j, i);
    }
  }

  lemma BelowGrows(s: State, p: Path, i: nat, f: Frame)
    requires Below(s, p, i, f)
    ensures Below(s, p, i + 1, f)
  {
    if TableBelow(s, p, i, f) {
      var q :| q in s.t && Under(p, q) && q != p && Branch(p, q) < i && s.t[q] == f;
      assert Branch(p, q) < i + 1;
    } else {
      var q, j: nat :| IsLeaf(s, Owner(p), q, j) && Under(p, q) && Passed(p, q, j, i) && SlotOf(s, q, j).frame == f;
      assert Passed(p, q, j, i + 1);
    }
  }

  lemma EntryIsBelow(s: State, p: Path, i: nat, f: Frame)
    requires Good(s) && Depth(p) <= 3 && EntryAdds(s, p, i, f)
    ensures Below(s, p, i + 1, f)
  {
    if Depth(p) == 3 {
      assert Under(p, p) && Passed(p, p, i, i + 1);
    } else if f == s.t[Sub(p, i)] {
      UnderEntry(p, i, Sub(p, i));
    } else if TableBelow(s, Sub(p, i), WORDS, f) {
      var q :| q in s.t && Under(Sub(p, i), q) && q != Sub(p, i) && Branch(Sub(p, i), q) < WORDS && s.t[q] == f;
      UnderEntry(p, i, q);
    } else {
      var q, j: nat :| IsLeaf(s, Owner(Sub(p, i)), q, j) && Under(Sub(p, i), q)
                       && Passed(Sub(p, i), q, j, WORDS) && SlotOf(s, q, j).frame == f;
      UnderEntry(p, i, q);
      assert Passed(p, q, j, i + 1);
    }
  }

  /** One more entry adds exactly what it names. */
  lemma BelowStep(s: State, p: Path, i: nat)
    requires Good(s) && Depth(p) <= 3
    ensures forall f :: Below(s, p, i + 1, f) <==> Below(s, p, i, f) || EntryAdds(s, p, i, f)
  {
    hide Good;
    forall f
      ensures Below(s, p, i + 1, f) <==> Below(s, p, i, f) || EntryAdds(s, p, i, f)
    {
      if Below(s, p, i, f) { BelowGrows(s, p, i, f); }
      if EntryAdds(s, p, i, f) { EntryIsBelow(s, p, i, f); }
      if Below(s, p, i + 1, f) {
        BelowOnlyAdds(s, p, i, f);
      }
    }
  }

  lemma BelowOnlyAdds(s: State, p: Path, i: nat, f: Frame)
    requires Good(s) && Depth(p) <= 3 && Below(s, p, i + 1, f)
    ensures Below(s, p, i, f) || EntryAdds(s, p, i, f)
  {
    hide Good;
    if Depth(p) < 3 {
      if TableBelow(s, p, i + 1, f) {
        TableBelowStep(s, p, i, f);
      } else {
        LeafBelowStep(s, p, i, f);
      }
    } else if TableBelow(s, p, i + 1, f) {
      var q :| q in s.t && Under(p, q) && q != p;
      UnderFacts(p, q);
      DepthBound(s, q);
    } else {
      var q, j: nat :| IsLeaf(s, Owner(p), q, j) && Under(p, q) && Passed(p, q, j, i + 1) && SlotOf(s, q, j).frame == f;
      UnderFacts(p, q);
      if j < i {
        assert Passed(p, q, j, i);
      }
    }
  }

  lemma DepthBound(s: State, q: Path)
    requires Good(s) && q in s.t
    ensures Depth(q) <= 3
  {
  }

  /** Space `c` maps no frame twice. */
  ghost predicate OwnLeaves(s: State, c: nat) {
    forall q, j: nat, q', j': nat :: IsLeaf(s, c, q, j) && IsLeaf(s, c, q', j') ==>
      SlotOf(s, q, j).frame == SlotOf(s, q', j').frame ==> q == q' && j == j'
  }

  lemma LeafIsNoTable(s: State, c: nat, q: Path, j: nat, r: Path)
    requires Good(s) && IsLeaf(s, c, q, j) && r in s.t
    ensures SlotOf(s, q, j).frame != s.t[r]
  {
    assert LeafClear(s.m, s.t, s.free, q, j);
  }

  /** What lies below the entry `i` of `p`: a table there, or a leaf there. */
  lemma EntryWitness(s: State, p: Path, i: nat, f: Frame) returns (isTable: bool, q: Path, j: nat)
    requires Good(s) && Depth(p) <= 3 && EntryAdds(s, p, i, f)
    ensures isTable ==> Depth(p) < 3 && q in s.t && s.t[q] == f && Under(p, q) && q != p && Branch(p, q) == i
    ensures !isTable ==> IsLeaf(s, Owner(p), q, j) && SlotOf(s, q, j).frame == f && Under(p, q)
    ensures !isTable ==> if Depth(p) == 3 then q == p && j == i else Branch(p, q) == i
  {
    hide Good;
    if Depth(p) == 3 {
      return false, p, i;
    }
    if f == s.t[Sub(p, i)] {
      UnderEntry(p, i, Sub(p, i));
      return true, Sub(p, i), 0;
    }
    if TableBelow(s, Sub(p, i), WORDS, f) {
      q :| q in s.t && Under(Sub(p, i), q) && q != Sub(p, i) && Branch(Sub(p, i), q) < WORDS && s.t[q] == f;
      UnderEntry(p, i, q);
      return true, q, 0;
    }
    q, j :| IsLeaf(s, Owner(Sub(p, i)), q, j) && Under(Sub(p, i), q)
            && Passed(Sub(p, i), q, j, WORDS) && SlotOf(s, q, j).frame == f;
    UnderEntry(p, i, q);
    return false, q, j;
  }

  /** A table at or below an entry was not below an earlier entry. */
  lemma TableIsNew(s: State, p: Path, i: nat, q: Path)
    requires Good(s) && Under(Sub(p, i), q) && q in s.t
    ensures !Below(s, p, i, s.t[q])
  {
    hide Good;
    UnderEntry(p, i, q);
    if TableBelow(s, p, i, s.t[q]) {
      var r :| r in s.t && Under(p, r) && r != p && Branch(p, r) < i && s.t[r] == s.t[q];
      SameTable(s, q, r);
    } else if LeafBelow(s, p, i, s.t[q]) {
      var r, k: nat :| IsLeaf(s, Owner(p), r, k) && Under(p, r) && Passed(p, r, k, i)
                       && SlotOf(s, r, k).frame == s.t[q];
      LeafIsNoTable(s, Owner(p), r, k, q);
    }
  }

  /** Where space `c` maps no frame twice, nothing an entry adds was below an earlier entry. */
  lemma EntryIsNew(s: State, p: Path, i: nat, f: Frame)
    requires Good(s) && Depth(p) <= 3 && OwnLeaves(s, Owner(p)) && EntryAdds(s, p, i, f)
    ensures !Below(s, p, i, f)
  {
    var isTable, q, j := EntryWitness(s, p, i, f);
    if TableBelow(s, p, i, f) {
      var r :| r in s.t && Under(p, r) && r != p && Branch(p, r) < i && s.t[r] == f;
      if isTable {
        SameTable(s, q, r);
      } else {
        LeafIsNoTable(s, Owner(p), q, j, r);
      }
    } else if LeafBelow(s, p, i, f) {
      var r, k: nat :| IsLeaf(s, Owner(p), r, k) && Under(p, r) && Passed(p, r, k, i) && SlotOf(s, r, k).frame == f;
      if isTable {
        LeafIsNoTable(s, Owner(p), r, k, q);
      }
    }
  }

  lemma SameTable(s: State, q: Path, r: Path)
    requires Good(s) && q in s.t && r in s.t && s.t[q] == s.t[r]
    ensures q == r
  {
  }

  /** A table is not among the frames below it. */
  lemma NotBelowItself(s: State, p: Path, n: nat)
    requires Good(s) && p in s.t
    ensures !Below(s, p, n, s.t[p])
  {
    if LeafBelow(s, p, n, s.t[p]) {
      var r, k: nat :| IsLeaf(s, Owner(p), r, k) && Under(p, r) && Passed(p, r, k, n)
                       && SlotOf(s, r, k).frame == s.t[p];
      LeafIsNoTable(s, Owner(p), r, k, p);
    }
  }

  // ---------------------------------------------------------------------------
  // The rollback loops
  // ---------------------------------------------------------------------------

  /** The tables at and below `p` still hold what they held when the rollback began. */
  ghost predicate Intact(m: Memory, s: State, p: Path) {
    forall q :: q in s.t && Under(p, q) ==> s.t[q] in m && s.t[q] in s.m && m[s.t[q]] == s.m[s.t[q]]
  }

  /** Frames that the loop over `p` will free are in memory. */
  ghost predicate ToFree(m: Memory, s: State, p: Path) {
    forall f :: Below(s, p, WORDS, f) ==> f in m
  }

  /** The loop over `p` will free each frame once, and none that is free already. */
  ghost predicate FreesOnce(free: seq<Frame>, s: State, p: Path) {
    OwnLeaves(s, Owner(p)) && forall f :: Below(s, p, WORDS, f) ==> f !in free
  }

  /** Exactly the frames below the first `n` entries of `p` were added to the list. */
  ghost predicate Freed(m: Memory, free: seq<Frame>, m': Memory, free': seq<Frame>, s: State, p: Path, n: nat) {
    && m'.Keys == m.Keys
    && (forall f :: f in free' <==> f in free || Below(s, p, n, f))
    && (forall f :: f in m && !Below(s, p, n, f) ==> m'[f] == m[f])
  }

  lemma {:induction false} BelowUpTo(s: State, p: Path, i: nat, n: nat, f: Frame)
    requires Below(s, p, i, f) && i <= n
    ensures Below(s, p, n, f)
    decreases n - i
  {
    if i < n {
      BelowGrows(s, p, i, f);
      BelowUpTo(s, p, i + 1, n, f);
    }
  }

  /** What the word in entry `i` of table `p` says about the frames below it. */
  lemma EntryFacts(s: State, p: Path, i: nat)
    requires Good(s) && p in s.t && Depth(p) <= 3 && i < WORDS
    ensures s.t[p] in s.m
    ensures !s.m[s.t[p]][i].valid ==> forall f :: !EntryAdds(s, p, i, f)
    ensures s.m[s.t[p]][i].valid ==> EntryAdds(s, p, i, s.m[s.t[p]][i].frame)
    ensures s.m[s.t[p]][i].valid && Depth(p) < 3 ==> Sub(p, i) in s.t && s.t[Sub(p, i)] == s.m[s.t[p]][i].frame
    ensures s.m[s.t[p]][i].valid && Depth(p) == 3 ==>
              forall f :: EntryAdds(s, p, i, f) <==> f == s.m[s.t[p]][i].frame
  {
    if Depth(p) < 3 {
      assert Linked(s.m, s.t, p, i);
    }
  }

  /** What entry `i` adds is in memory when the loop reaches it. */
  lemma EntryReady(m: Memory, free: seq<Frame>, m1: Memory, free1: seq<Frame>, s: State, p: Path, i: nat, f: Frame)
    requires Good(s) && Depth(p) <= 3 && i < WORDS
    requires ToFree(m, s, p) && Freed(m, free, m1, free1, s, p, i) && EntryAdds(s, p, i, f)
    ensures f in m && f in m1
  {
    hide Good, Below, EntryAdds;
    EntryIsBelow(s, p, i, f);
    BelowUpTo(s, p, i + 1, WORDS, f);
  }

  lemma EntryNotFree(m: Memory, free: seq<Frame>, m1: Memory, free1: seq<Frame>, s: State, p: Path, i: nat, f: Frame)
    requires Good(s) && Depth(p) <= 3 && i < WORDS
    requires FreesOnce(free, s, p) && Freed(m, free, m1, free1, s, p, i) && EntryAdds(s, p, i, f)
    ensures f !in free1
  {
    hide Good, Below, EntryAdds;
    EntryIsNew(s, p, i, f);
    EntryIsBelow(s, p, i, f);
    BelowUpTo(s, p, i + 1, WORDS, f);
  }

  /** Before entry `i` is freed, the tables at and below it are intact and what is below it is in memory. */
  lemma ChildReady(m: Memory, free: seq<Frame>, m1: Memory, free1: seq<Frame>, s: State, p: Path, i: nat)
    requires Good(s) && Depth(p) < 3 && i < WORDS && Sub(p, i) in s.t
    requires Intact(m, s, p) && ToFree(m, s, p) && Freed(m, free, m1, free1, s, p, i)
    ensures Intact(m1, s, Sub(p, i)) && ToFree(m1, s, Sub(p, i))
  {
    hide Good, Below, ToFree;
    forall q | q in s.t && Under(Sub(p, i), q)
      ensures s.t[q] in m1 && s.t[q] in s.m && m1[s.t[q]] == s.m[s.t[q]]
    {
      UnderEntry(p, i, q);
      TableIsNew(s, p, i, q);
    }
    forall f | Below(s, Sub(p, i), WORDS, f)
      ensures f in m1
    {
      EntryReady(m, free, m1, free1, s, p, i, f);
    }
    assert ToFree(m1, s, Sub(p, i)) by { ToFreeIntro(m1, s, Sub(p, i)); }
  }

  lemma ChildOnce(m: Memory, free: seq<Frame>, m1: Memory, free1: seq<Frame>, s: State, p: Path, i: nat)
    requires Good(s) && Depth(p) < 3 && i < WORDS && Sub(p, i) in s.t
    requires FreesOnce(free, s, p) && Freed(m, free, m1, free1, s, p, i)
    ensures FreesOnce(free1, s, Sub(p, i))
  {
    hide Good, Below, Freed, OwnLeaves;
    forall f | Below(s, Sub(p, i), WORDS, f)
      ensures f !in free1
    {
      EntryNotFree(m, free, m1, free1, s, p, i, f);
    }
  }

  lemma ToFreeIntro(m: Memory, s: State, p: Path)
    requires forall f :: Below(s, p, WORDS, f) ==> f in m
    ensures ToFree(m, s, p)
  {
  }

  lemma BelowEntry(s: State, p: Path, i: nat)
    requires Good(s) && Depth(p) < 3 && Sub(p, i) in s.t
    ensures forall g :: Below(s, p, i + 1, g) <==>
              Below(s, p, i, g) || g == s.t[Sub(p, i)] || Below(s, Sub(p, i), WORDS, g)
  {
    hide Good, Below;
    BelowStep(s, p, i);
    forall g
      ensures Below(s, p, i + 1, g) <==>
              Below(s, p, i, g) || g == s.t[Sub(p, i)] || Below(s, Sub(p, i), WORDS, g)
    {
      assert Below(s, p, i + 1, g) <==> Below(s, p, i, g) || EntryAdds(s, p, i, g);
    }
  }

  /** Freeing what is below an entry and then the frame it names frees exactly what the entry adds. */
  lemma FreedEntry(m: Memory, free: seq<Frame>, m1: Memory, free1: seq<Frame>, m2: Memory, free2: seq<Frame>,
                   s: State, p: Path, i: nat, f: Frame, node: Page)
    requires Good(s) && Depth(p) < 3 && i < WORDS && Sub(p, i) in s.t && f == s.t[Sub(p, i)] && f in m
    requires Freed(m, free, m1, free1, s, p, i) && Freed(m1, free1, m2, free2, s, Sub(p, i), WORDS)
    ensures Freed(m, free, m2[f := node], [f] + free2, s, p, i + 1)
  {
    hide Good, Below;
    BelowEntry(s, p, i);
    var m3 := m2[f := node];
    forall g | g in m && !Below(s, p, i + 1, g)
      ensures m3[g] == m[g]
    {
      assert g != f && !Below(s, p, i, g) && !Below(s, Sub(p, i), WORDS, g);
      assert m1[g] == m[g] && m2[g] == m1[g];
    }
    forall g
      ensures g in [f] + free2 <==> g in free || Below(s, p, i + 1, g)
    {
      assert g in [f] + free2 <==> g == f || g in free2;
    }
  }

  lemma FreedLeafEntry(m: Memory, free: seq<Frame>, m1: Memory, free1: seq<Frame>, s: State, p: Path, i: nat,
                       f: Frame, node: Page)
    requires Good(s) && Depth(p) == 3 && i < WORDS && f in m
    requires forall g :: EntryAdds(s, p, i, g) <==> g == f
    requires Freed(m, free, m1, free1, s, p, i)
    ensures Freed(m, free, m1[f := node], [f] + free1, s, p, i + 1)
  {
    BelowStep(s, p, i);
    hide Good, Below, EntryAdds;
  }

  lemma FreedNothing(m: Memory, free: seq<Frame>, m1: Memory, free1: seq<Frame>, s: State, p: Path, i: nat)
    requires Good(s) && Depth(p) <= 3 && Freed(m, free, m1, free1, s, p, i)
    requires forall f :: !EntryAdds(s, p, i, f)
    ensures Freed(m, free, m1, free1, s, p, i + 1)
  {
    BelowStep(s, p, i);
    hide Good, Below, EntryAdds;
  }

  lemma {:induction false} FreedRest(m: Memory, free: seq<Frame>, m1: Memory, free1: seq<Frame>, s: State, p: Path,
                                     i: nat)
    requires Good(s) && p in s.t && Depth(p) <= 3 && i <= WORDS && EmptyFrom(s.m[s.t[p]], i)
    requires Freed(m, free, m1, free1, s, p, i)
    ensures Freed(m, free, m1, free1, s, p, WORDS)
    decreases WORDS - i
  {
    hide Good, Below, Freed;
    if i < WORDS {
      EntryFacts(s, p, i);
      FreedNothing(m, free, m1, free1, s, p, i);
      FreedRest(m, free, m1, free1, s, p, i + 1);
    }
  }

  lemma FreedStart(m: Memory, free: seq<Frame>, s: State, p: Path)
    ensures Freed(m, free, m, free, s, p, 0)
  {
    forall f ensures !Below(s, p, 0, f) { NothingBelowZero(s, p, f); }
  }

  lemma TableIntact(m: Memory, free: seq<Frame>, m1: Memory, free1: seq<Frame>, s: State, p: Path, i: nat)
    requires Good(s) && p in s.t && Intact(m, s, p) && Freed(m, free, m1, free1, s, p, i)
    ensures s.t[p] in m1 && s.t[p] in s.m && m1[s.t[p]] == s.m[s.t[p]]
  {
    NotBelowItself(s, p, i);
    assert Under(p, p);
  }

  /** `free_partial_copy`, one level per call: free what is below `table`, children before parents.  The
      code does not ask who else maps a page, so a page mapped twice is pushed twice. */
  method FreeBelow(pa: PhysicalAllocator, table: Frame, level: nat, ghost s: State, ghost p: Path)
    requires Good(s) && p in s.t && s.t[p] == table && Depth(p) == level <= 3
    requires Intact(pa.mem, s, p) && ToFree(pa.mem, s, p)
    requires table in s.m && EmptyFrom(s.m[table], EntryBound(level))
    modifies pa
    ensures Freed(old(pa.mem), old(pa.free), pa.mem, pa.free, s, p, WORDS)
    ensures old(pa.Valid()) && FreesOnce(old(pa.free), s, p) ==> pa.Valid()
    decreases 3 - level
  {
    hide Good, Below, EntryAdds, Freed, Intact, ToFree, OwnLeaves, IsFreeList, EmptyFrom, FreesOnce;
    ghost var m, free := pa.mem, pa.free;
    ghost var once := pa.Valid() && FreesOnce(free, s, p);
    FreedStart(m, free, s, p);
    for i := 0 to EntryBound(level)
      invariant Freed(m, free, pa.mem, pa.free, s, p, i)
      invariant once ==> pa.Valid()
    {
      ghost var m1, free1 := pa.mem, pa.free;
      TableIntact(m, free, m1, free1, s, p, i);
      EntryFacts(s, p, i);
      var w := pa.mem[table][i];
      if !w.valid {
        FreedNothing(m, free, m1, free1, s, p, i);
        continue;
      }
      EntryReady(m, free, m1, free1, s, p, i, w.frame);
      if once { EntryNotFree(m, free, m1, free1, s, p, i, w.frame); }
      if level < 3 {
        ChildReady(m, free, m1, free1, s, p, i);
        if once { ChildOnce(m, free, m1, free1, s, p, i); }
        EmptyPast(s, w.frame, Sub(p, i));
        FreeBelow(pa, w.frame, level + 1, s, Sub(p, i));
        SurvivesBelow(m1, free1, pa.mem, pa.free, s, Sub(p, i));
        ghost var m2, free2, head2 := pa.mem, pa.free, pa.head;
        pa.FreePage(w.frame);
        FreedEntry(m, free, m1, free1, m2, free2, s, p, i, w.frame, ListNode(m2[w.frame], head2));
      } else {
        ghost var head1 := pa.head;
        pa.FreePage(w.frame);
        FreedLeafEntry(m, free, m1, free1, s, p, i, w.frame, ListNode(m1[w.frame], head1));
      }
    }
    FreedRest(m, free, pa.mem, pa.free, s, p, EntryBound(level));
  }

  lemma EmptyPast(s: State, table: Frame, p: Path)
    requires Good(s) && p in s.t && s.t[p] == table
    ensures table in s.m && EmptyFrom(s.m[table], WORDS)
  {
  }

  lemma SurvivesBelow(m1: Memory, free1: seq<Frame>, m2: Memory, free2: seq<Frame>, s: State, p: Path)
    requires Good(s) && p in s.t && s.t[p] in m1 && Freed(m1, free1, m2, free2, s, p, WORDS)
    ensures s.t[p] in m2 && (s.t[p] !in free1 ==> s.t[p] !in free2)
  {
    NotBelowItself(s, p, WORDS);
  }

  /** Exactly the root of space `c` and what lies below it joined the list. */
  ghost predicate RolledBack(s: State, c: nat, m': Memory, free': seq<Frame>)
    requires Root(c) in s.t
  {
    && m'.Keys == s.m.Keys
    && (forall f :: f in free' <==> f in s.free || f == s.t[Root(c)] || Below(s, Root(c), WORDS, f))
    && (forall f :: f in s.m && f != s.t[Root(c)] && !Below(s, Root(c), WORDS, f) ==> m'[f] == s.m[f])
  }

  lemma BeforeRollback(s: State, c: nat)
    requires Good(s) && Root(c) in s.t && Backed(s, c)
    ensures Intact(s.m, s, Root(c)) && ToFree(s.m, s, Root(c))
    ensures s.t[Root(c)] in s.m && s.t[Root(c)] !in s.free
    ensures forall f :: Below(s, Root(c), WORDS, f) ==> f !in s.free
  {
    forall f | Below(s, Root(c), WORDS, f)
      ensures f in s.m && f !in s.free
    {
      if TableBelow(s, Root(c), WORDS, f) {
        var q :| q in s.t && Under(Root(c), q) && q != Root(c) && Branch(Root(c), q) < WORDS && s.t[q] == f;
      } else {
        var q, j: nat :| IsLeaf(s, c, q, j) && Under(Root(c), q) && Passed(Root(c), q, j, WORDS)
                         && SlotOf(s, q, j).frame == f;
        assert LeafClear(s.m, s.t, s.free, q, j);
      }
    }
  }

  /** The failing path of both copies: `free_partial_copy`, then the root. */
  method Rollback(pa: PhysicalAllocator, root: Frame, ghost s: State, ghost c: nat)
    requires Good(s) && Root(c) in s.t && s.t[Root(c)] == root && Backed(s, c) && pa.mem == s.m && pa.free == s.free
    requires root in s.m && EmptyFrom(s.m[root], 256)
    modifies pa
    ensures RolledBack(s, c, pa.mem, pa.free)
    ensures old(pa.Valid()) && OwnLeaves(s, c) ==> pa.Valid()
  {
    hide Good, Below, Intact, ToFree, OwnLeaves, IsFreeList, EmptyFrom, Backed;
    BeforeRollback(s, c);
    assert OwnLeaves(s, c) ==> FreesOnce(s.free, s, Root(c));
    FreeBelow(pa, root, 0, s, Root(c));
    SurvivesBelow(s.m, s.free, pa.mem, pa.free, s, Root(c));
    pa.FreePage(root);
  }

  // ---------------------------------------------------------------------------
  // deep_copy_user
  // ---------------------------------------------------------------------------

  /** Two leaves with equal attributes whose frames hold equal pages, or two absent leaves. */
  ghost predicate SamePage(m: Memory, w: Word, m': Memory, v: Word) {
    if !w.valid then v == ZERO
    else v == w.(frame := v.frame) && w.frame in m && v.frame in m' && m'[v.frame] == m[w.frame]
  }

  /** Space `c` has a copy of every lower-half page of `parent`, and nothing else. */
  ghost predicate CopiesUserHalf(s0: State, s: State, parent: nat, c: nat) {
    && (forall va :: Index0(va) < 256 ==>
          SamePage(s0.m, Lookup(s0.m, s0.t, parent, va), s.m, Lookup(s.m, s.t, c, va)))
    && (forall va :: Index0(va) >= 256 ==> Lookup(s.m, s.t, c, va) == ZERO)
  }

  /** The frames of space `c` come off the free list and no two of its pages share one. */
  ghost predicate FreshAndDistinct(s0: State, s: State, c: nat) {
    && (forall va :: Lookup(s.m, s.t, c, va).valid ==> Lookup(s.m, s.t, c, va).frame in s0.free)
    && (forall va, va' :: Lookup(s.m, s.t, c, va).valid && Lookup(s.m, s.t, c, va').valid ==>
          Lookup(s.m, s.t, c, va).frame == Lookup(s.m, s.t, c, va').frame ==> PageNumber(va) == PageNumber(va'))
  }

  lemma PathFacts(parent: nat, c: nat, va: nat)
    ensures Under(Root(parent), Path3(parent, va)) && Branch(Root(parent), Path3(parent, va)) == Index0(va)
    ensures Rebase(Path3(parent, va), c) == Path3(c, va)
  {
    assert Branch(Root(parent), Path1(parent, va)) == Index0(va);
    assert Branch(Root(parent), Path2(parent, va)) == Index0(va);
    assert Under(Root(parent), Path1(parent, va)) && Under(Root(parent), Path2(parent, va));
    assert Rebase(Path1(parent, va), c) == Path1(c, va);
    assert Rebase(Path2(parent, va), c) == Path2(c, va);
  }

  lemma CopiedLookup(mode: Mode, s0: State, s: State, parent: nat, c: nat, va: nat)
    requires Copied(mode, s0, s, Root(parent), c, 256)
    ensures if Index0(va) < 256
            then CopyOf(mode, s0, Lookup(s0.m, s0.t, parent, va), s, Lookup(s.m, s.t, parent, va),
                        Lookup(s.m, s.t, c, va))
            else Lookup(s.m, s.t, parent, va) == Lookup(s0.m, s0.t, parent, va) && Lookup(s.m, s.t, c, va) == ZERO
  {
    PathFacts(parent, c, va);
    var q, j := Path3(parent, va), Index3(va);
    hide Slot, Index0, Index1, Index2, Index3, Path3, CopyOf;
    assert if Passed(Root(parent), q, j, 256) then SlotCopied(mode, s0, s, c, q, j) else SlotPending(s0, s, c, q, j);
  }

  lemma CopiedUserHalf(s0: State, s: State, parent: nat, c: nat)
    requires Copied(Eager, s0, s, Root(parent), c, 256)
    ensures CopiesUserHalf(s0, s, parent, c)
  {
    hide Lookup, Index0, Copied;
    forall va
      ensures Index0(va) < 256 ==> SamePage(s0.m, Lookup(s0.m, s0.t, parent, va), s.m, Lookup(s.m, s.t, c, va))
      ensures Index0(va) >= 256 ==> Lookup(s.m, s.t, c, va) == ZERO
    {
      CopiedLookup(Eager, s0, s, parent, c, va);
    }
  }

  lemma FreshDistinct(s0: State, s: State, c: nat)
    requires FreshLeaves(s, c, s0.free)
    ensures FreshAndDistinct(s0, s, c)
  {
    hide Slot, Index0, Index1, Index2, Index3, Path3;
    forall va | Lookup(s.m, s.t, c, va).valid
      ensures IsLeaf(s, c, Path3(c, va), Index3(va))
    {
    }
    forall va, va' | Lookup(s.m, s.t, c, va).valid && Lookup(s.m, s.t, c, va').valid
                     && Lookup(s.m, s.t, c, va).frame == Lookup(s.m, s.t, c, va').frame
      ensures PageNumber(va) == PageNumber(va')
    {
      assert IsLeaf(s, c, Path3(c, va), Index3(va)) && IsLeaf(s, c, Path3(c, va'), Index3(va'));
      SlotIffPage(c, va, va');
    }
  }

  /** Frames outside the free list hold what they held. */
  ghost predicate SameOutside(m: Memory, free: seq<Frame>, m': Memory) {
    m'.Keys == m.Keys && forall f :: f in m && f !in free ==> m'[f] == m[f]
  }

  /** A space built of its own frames took them all off the list. */
  lemma OwnFrames(s0: State, s: State, c: nat)
    requires Copying(Eager, s0, s, c) && Root(c) in s.t
    ensures Good(s) && OwnLeaves(s, c) && Backed(s, c)
    ensures forall f :: Below(s, Root(c), WORDS, f) || f == s.t[Root(c)] ==> f in s0.free
  {
    forall f | Below(s, Root(c), WORDS, f)
      ensures f in s0.free
    {
      if TableBelow(s, Root(c), WORDS, f) {
        var q :| q in s.t && Under(Root(c), q) && q != Root(c) && Branch(Root(c), q) < WORDS && s.t[q] == f;
        UnderFacts(Root(c), q);
      } else {
        var q, j: nat :| IsLeaf(s, c, q, j) && Under(Root(c), q) && Passed(Root(c), q, j, WORDS)
                         && SlotOf(s, q, j).frame == f;
      }
    }
    assert Owner(Root(c)) == c;
  }

  lemma {:induction false} UnderRoot(q: Path)
    ensures Under(Root(Owner(q)), q)
  {
    if q.Sub? {
      UnderRoot(q.up);
    }
  }

  /** Every frame taken for space `c` is its root or lies below it. */
  lemma TakenIsBelow(s0: State, s: State, c: nat, f: Frame)
    requires Copying(Eager, s0, s, c) && Root(c) in s.t && f in s0.free && f !in s.free
    ensures f == s.t[Root(c)] || Below(s, Root(c), WORDS, f)
  {
    hide Good, PagesKept, Untouched, FreshLeaves;
    if HasTable(s, c, f) {
      var q :| q in s.t && Owner(q) == c && s.t[q] == f;
      UnderRoot(q);
      if q != Root(c) {
        UnderFacts(Root(c), q);
        UnderIsIn(s, Sub(Root(c), Branch(Root(c), q)), q);
        NoFarEntry(s, Root(c), Branch(Root(c), q));
        assert TableBelow(s, Root(c), WORDS, f);
      }
    } else {
      var q, j: nat :| IsLeaf(s, c, q, j) && SlotOf(s, q, j).frame == f;
      UnderRoot(q);
      UnderFacts(Root(c), q);
      UnderIsIn(s, Sub(Root(c), Branch(Root(c), q)), q);
      NoFarEntry(s, Root(c), Branch(Root(c), q));
      assert Passed(Root(c), q, j, WORDS);
      assert LeafBelow(s, Root(c), WORDS, f);
    }
  }

  /** After the rollback the free set and every other frame are as before the copy. */
  lemma AfterRollback(s0: State, s: State, c: nat, m': Memory, free': seq<Frame>)
    requires Copying(Eager, s0, s, c) && Root(c) in s.t && RolledBack(s, c, m', free')
    ensures Elements(free') == Elements(s0.free) && SameOutside(s0.m, s0.free, m')
  {
    hide Below;
    OwnFrames(s0, s, c);
    forall f
      ensures f in free' <==> f in s0.free
    {
      if f in s0.free && f !in s.free { TakenIsBelow(s0, s, c, f); }
    }
    forall f | f in s0.m && f !in s0.free
      ensures f in s.m && s.m[f] == s0.m[f]
    {
      if !NotATable(s0.t, f) {
        var q :| q in s0.t && s0.t[q] == f;
      }
    }
  }

  /** A state that agrees with a good one outside the same free set is good. */
  lemma StillGood(s: State, m': Memory, free': seq<Frame>)
    requires Good(s) && SameOutside(s.m, s.free, m') && Elements(free') == Elements(s.free) && Distinct(free')
    requires forall k :: 0 <= k < |free'| ==> free'[k] in m'
    ensures Good(State(m', s.t, free'))
  {
    assert forall f :: f in free' <==> f in Elements(free');
    assert forall f :: f in s.free <==> f in Elements(s.free);
    assert forall q :: q in s.t ==> s.t[q] in m' && m'[s.t[q]] == s.m[s.t[q]];
    forall q, j: nat | q in s.t && Depth(q) < 3 && j < WORDS
      ensures Linked(m', s.t, q, j)
    {
      assert Linked(s.m, s.t, q, j);
    }
    forall q, j: nat | q in s.t && Depth(q) == 3 && j < WORDS
      ensures LeafClear(m', s.t, free', q, j)
    {
      assert LeafClear(s.m, s.t, s.free, q, j);
    }
  }

  /** Spaces other than `c` translate as before. */
  ghost predicate OthersSame(s0: State, s: State, c: nat) {
    forall id, va :: id != c ==> Lookup(s.m, s.t, id, va) == Lookup(s0.m, s0.t, id, va)
  }

  lemma BuiltOthers(s0: State, s: State, c: nat)
    requires Copying(Eager, s0, s, c)
    ensures OthersSame(s0, s, c)
  {
    hide Good, PagesKept, FreshLeaves, Accounted, Index0, Index1, Index2, Index3;
    forall id, va | id != c
      ensures Lookup(s.m, s.t, id, va) == Lookup(s0.m, s0.t, id, va)
    {
      assert Owner(Path3(id, va)) == id;
    }
  }

  lemma FreeListFacts(pa: PhysicalAllocator, t: Tables)
    requires Sound(pa, t)
    ensures Good(Now(pa, t))
  {
  }

  lemma SoundAgain(pa: PhysicalAllocator, t: Tables)
    requires pa.Valid() && Good(Now(pa, t))
    ensures Sound(pa, t)
  {
  }

  /** `deep_copy_user`.  It succeeds exactly when the list holds a frame for the root, one for every table
      and one for every page of the lower half, and space `c` is then an independent copy of that half of
      `parent`.  When frames run out, at whatever point of the four loops, the set of free frames and the
      contents of every other frame are what they were before the call. */
  method DeepCopyUser(pa: PhysicalAllocator, root: Frame, ghost parent: nat, ghost c: nat, ghost t: Tables)
    returns (r: Option<Frame>, ghost t': Tables)
    requires Sound(pa, t) && Root(parent) in t && t[Root(parent)] == root
    requires NewSpace(t, c) && Backed(Now(pa, t), parent)
    modifies pa
    ensures r.Some? <==> |old(pa.free)| >= 1 + old(|UserTables(Now(pa, t), parent)| + |UserPages(Now(pa, t), parent)|)
    ensures r.Some? ==>
              && Sound(pa, t') && Root(c) in t' && t'[Root(c)] == r.value
              && CopiesUserHalf(old(Now(pa, t)), Now(pa, t'), parent, c)
              && FreshAndDistinct(old(Now(pa, t)), Now(pa, t'), c)
              && OthersSame(old(Now(pa, t)), Now(pa, t'), c)
              && PagesKept(old(pa.mem), t, old(pa.free), pa.mem)
              && |pa.free| ==
                 |old(pa.free)| - 1 - old(|UserTables(Now(pa, t), parent)| + |UserPages(Now(pa, t), parent)|)
    ensures r.None? ==>
              && Sound(pa, t) && Elements(pa.free) == Elements(old(pa.free))
              && SameOutside(old(pa.mem), old(pa.free), pa.mem)
  {
    ghost var s0 := Now(pa, t);
    FreeListFacts(pa, t);
    assert Owner(Root(parent)) == parent && parent != c;
    hide Good, Forest, Separated, IsFreeList, FreshLeaves, Accounted, Untouched, Copied, EmptyFrom, Backed,
      CopiesUserHalf, FreshAndDistinct, OthersSame, SameOutside, NewSpace, PagesKept, OwnLeaves, RolledBack, Cost, Lead,
      UserTables, UserPages;
    t' := t;
    UserCost(s0, parent);
    r := pa.CreateTable();
    if r.None? {
      NothingHappened(s0);
      return;
    }
    StartCopying(Eager, s0, parent, c);
    AddRootGood(s0, c);
    EagerPhase(s0, Now(pa, t[Root(c) := r.value]), parent, c);
    var ok, shared;
    ok, t', shared := CopyTable(pa, root, r.value, 0, Eager, s0, Root(parent), c, t[Root(c) := r.value], false);
    ghost var s := Now(pa, t');
    RootStays(s0, s, c, parent, t);
    if ok {
      CopiedUserHalf(s0, s, parent, c);
      FreshDistinct(s0, s, c);
      BuiltOthers(s0, s, c);
      SoundAgain(pa, t');
      return;
    }
    OwnFrames(s0, s, c);
    Rollback(pa, r.value, s, c);
    AfterRollback(s0, s, c, pa.mem, pa.free);
    ListFacts(pa);
    StillGood(s0, pa.mem, pa.free);
    SoundAgain(pa, t);
    r := None;
  }

  lemma NothingHappened(s: State)
    ensures SameOutside(s.m, s.free, s.m)
  {
  }

  lemma ListFacts(pa: PhysicalAllocator)
    requires pa.Valid()
    ensures Distinct(pa.free) && forall k :: 0 <= k < |pa.free| ==> pa.free[k] in pa.mem
  {
  }

  lemma RootStays(s0: State, s: State, c: nat, parent: nat, t: Tables)
    requires s0.free != [] && s0.t == t && Framed(RootAdded(s0, c), s, Root(parent), Root(c))
    ensures Root(c) in s.t && s.t[Root(c)] == s0.free[0]
  {
  }
}
