/** `collect_cow_pages`: the side map from page address to shared frame. */
module CowPages {
  import opened PhysicalMemory
  import opened PageTables
  import opened Mapping
  import opened TableCopy

  /** The page number whose walk follows `p` (so far). */
  function PathNumber(p: Path): nat {
    match p
    case Root(_) => 0
    case Sub(u, i) => PathNumber(u) * 512 + i
  }

  /** User addresses are the lower half that the copy loops visit. */
  const USER_PAGES: nat := 0x8_0000_0000

  lemma Quotient(x: nat, i: nat)
    requires i < 512
    ensures (x * 512 + i) / 512 == x && (x * 512 + i) % 512 == i
  {
  }

  /** Walking the address of page `n` takes the base-512 digits of `n`. */
  lemma IndicesOfNumber(n: nat)
    ensures Index3(n * 0x1000) == n % 512
    ensures Index2(n * 0x1000) == n / 512 % 512
    ensures Index1(n * 0x1000) == n / 512 / 512 % 512
    ensures Index0(n * 0x1000) == n / 512 / 512 / 512 % 512
  {
    var va := n * 0x1000;
    assert va / 0x1000 == n;
    assert va / 0x20_0000 == va / 0x1000 / 512;
    assert va / 0x4000_0000 == va / 0x1000 / 512 / 512;
    assert va / 0x80_0000_0000 == va / 0x1000 / 512 / 512 / 512;
  }

  /** A level-3 path is its three indices. */
  lemma PathOfThree(p: Path)
    requires Proper(p) && Depth(p) == 3
    ensures p.Sub? && p.up.Sub? && p.up.up.Sub?
    ensures p == Sub(Sub(Sub(Root(Owner(p)), p.up.up.index), p.up.index), p.index)
    ensures p.up.up.index < 512 && p.up.index < 512 && p.index < 512
  {
    assert p.Sub? && Depth(p.up) == 2 && Proper(p.up) && Owner(p.up) == Owner(p);
    assert p.up.Sub? && Depth(p.up.up) == 1 && Proper(p.up.up) && Owner(p.up.up) == Owner(p);
    assert p.up.up.Sub? && Depth(p.up.up.up) == 0 && Owner(p.up.up.up) == Owner(p);
  }

  lemma NumberOfThree(id: nat, a: nat, b: nat, c: nat)
    ensures PathNumber(Sub(Sub(Sub(Root(id), a), b), c)) == (a * 512 + b) * 512 + c
  {
    assert PathNumber(Sub(Root(id), a)) == a;
    assert PathNumber(Sub(Sub(Root(id), a), b)) == a * 512 + b;
  }

  lemma WalkOfDigits(id: nat, a: nat, b: nat, c: nat, j: nat)
    requires a < 512 && b < 512 && c < 512 && j < 512
    ensures Path3(id, (((a * 512 + b) * 512 + c) * 512 + j) * 0x1000) == Sub(Sub(Sub(Root(id), a), b), c)
    ensures Index3((((a * 512 + b) * 512 + c) * 512 + j) * 0x1000) == j
  {
    hide Index0, Index1, Index2, Index3;
    var n2 := a * 512 + b;
    var n1 := n2 * 512 + c;
    IndicesOfNumber(n1 * 512 + j);
    Quotient(n1, j);
    Quotient(n2, c);
    Quotient(a, b);
    assert (n1 * 512 + j) / 512 / 512 / 512 == a;
  }

  /** The address built from the indices of a level-3 slot walks back to that slot. */
  lemma SlotOfAddress(p: Path, j: nat)
    requires Proper(p) && Depth(p) == 3 && j < WORDS
    ensures Path3(Owner(p), (PathNumber(p) * 512 + j) * 0x1000) == p
    ensures Index3((PathNumber(p) * 512 + j) * 0x1000) == j
  {
    hide Index0, Index1, Index2, Index3, PathNumber, Path3;
    PathOfThree(p);
    NumberOfThree(Owner(p), p.up.up.index, p.up.index, p.index);
    WalkOfDigits(Owner(p), p.up.up.index, p.up.index, p.index, j);
  }

  // ---------------------------------------------------------------------------
  // Collecting the marked leaves
  // ---------------------------------------------------------------------------

  /** Page address `va` is a user page of `id` whose leaf carries the CoW mark. */
  ghost predicate Marked(s: State, id: nat, va: nat) {
    && va % 0x1000 == 0 && va < USER_PAGES * 0x1000
    && Lookup(s.m, s.t, id, va).valid && Lookup(s.m, s.t, id, va).cow
  }

  /** The loop over `p` has passed the leaf of `va` at count `n`. */
  ghost predicate Seen(s: State, p: Path, n: nat, va: nat) {
    && Marked(s, Owner(p), va) && Under(p, Path3(Owner(p), va))
    && Passed(p, Path3(Owner(p), va), Index3(va), n)
  }

  /** `acc'` is `acc` updated with every marked page seen under `p` up to entry `n`. */
  ghost predicate Collected(s: State, p: Path, n: nat, acc: map<nat, Frame>, acc': map<nat, Frame>) {
    && (forall va :: va in acc' <==> va in acc || Seen(s, p, n, va))
    && (forall va :: va in acc' ==>
          acc'[va] == if Seen(s, p, n, va) then Lookup(s.m, s.t, Owner(p), va).frame else acc[va])
  }

  lemma NothingSeen(s: State, p: Path, acc: map<nat, Frame>)
    requires Depth(p) <= 3
    ensures Collected(s, p, 0, acc, acc)
  {
  }

  lemma {:induction false} BranchBound(p: Path, q: Path)
    requires Under(p, q) && q != p && Proper(q)
    ensures Branch(p, q) < WORDS
  {
    if q.up != p {
      BranchBound(p, q.up);
    }
  }

  /** Entry `i` above level 3 adds the pages seen below it. */
  lemma SeenEntry(s: State, p: Path, i: nat, va: nat)
    requires Depth(p) < 3
    ensures Seen(s, p, i + 1, va) <==> Seen(s, p, i, va) || Seen(s, Sub(p, i), WORDS, va)
  {
    hide Marked, Index0, Index1, Index2, Index3, Path3;
    var q := Path3(Owner(p), va);
    assert Owner(Sub(p, i)) == Owner(p);
    if Under(p, q) {
      UnderFacts(p, q);
    }
    if Under(Sub(p, i), q) {
      UnderEntry(p, i, q);
      if q != Sub(p, i) {
        UnderFacts(Sub(p, i), q);
        BranchBound(Sub(p, i), q);
      }
    }
  }

  /** Only the address with the indices of the slot is seen at slot `i` of a level-3 table. */
  lemma SeenSlot(s: State, p: Path, i: nat, va: nat)
    requires Depth(p) == 3 && Proper(p) && i < WORDS
    requires (PathNumber(p) * 512 + i) < USER_PAGES
    ensures Seen(s, p, i + 1, va) <==>
            || Seen(s, p, i, va)
            || (va == (PathNumber(p) * 512 + i) * 0x1000 && Slot(s.m, s.t, p, i).valid && Slot(s.m, s.t, p, i).cow)
  {
    hide Index0, Index1, Index2, Index3, Path3, PageNumber, PathNumber;
    var v := (PathNumber(p) * 512 + i) * 0x1000;
    SlotOfAddress(p, i);
    var q := Path3(Owner(p), va);
    if Under(p, q) {
      UnderFacts(p, q);
      if va % 0x1000 == 0 && va < USER_PAGES * 0x1000 && Index3(va) == i {
        SlotIffPage(Owner(p), va, v);
        SamePageNumber(va, v);
      }
    }
  }

  lemma SamePageNumber(va: nat, va': nat)
    requires PageNumber(va) == PageNumber(va') && va % 0x1000 == 0 && va' % 0x1000 == 0
    requires va < USER_PAGES * 0x1000 && va' < USER_PAGES * 0x1000
    ensures va == va'
  {
    assert va / 0x1000 < 0x10_0000_0000 && va' / 0x1000 < 0x10_0000_0000;
  }

  /** The path starts in the lower half of its root. */
  ghost predicate LowerHalf(p: Path) {
    p.Sub? ==> if p.up.Root? then p.index < 256 else LowerHalf(p.up)
  }

  lemma LowerHalfNumber(p: Path, j: nat)
    requires Proper(p) && Depth(p) == 3 && LowerHalf(p) && j < WORDS
    ensures PathNumber(p) * 512 + j < USER_PAGES
  {
    PathOfThree(p);
    assert LowerHalf(p.up) && LowerHalf(p.up.up);
    NumberOfThree(Owner(p), p.up.up.index, p.up.index, p.index);
  }

  /** What entry `i` of `p` contributes, in the three cases of the loops. */
  lemma CollectedSkip(s: State, p: Path, i: nat, acc: map<nat, Frame>, acc': map<nat, Frame>)
    requires Good(s) && Depth(p) <= 3 && p in s.t && i < WORDS && Collected(s, p, i, acc, acc')
    requires Proper(p) && (Depth(p) == 3 ==> PathNumber(p) * 512 + i < USER_PAGES)
    requires if Depth(p) == 3 then !Slot(s.m, s.t, p, i).valid || !Slot(s.m, s.t, p, i).cow else Sub(p, i) !in s.t
    ensures Collected(s, p, i + 1, acc, acc')
  {
    hide Seen, Lookup, Slot, PathNumber;
    forall va
      ensures Seen(s, p, i + 1, va) <==> Seen(s, p, i, va)
    {
      if Depth(p) < 3 {
        SeenEntry(s, p, i, va);
        if Seen(s, Sub(p, i), WORDS, va) {
          NotSeenBelow(s, Sub(p, i), va);
        }
      } else {
        SeenSlot(s, p, i, va);
      }
    }
  }

  lemma NotSeenBelow(s: State, p: Path, va: nat)
    requires Good(s) && p !in s.t
    ensures !Seen(s, p, WORDS, va)
  {
    if Seen(s, p, WORDS, va) {
      assert Closed(s.t);
      MissingAbove(s.t, p, Path3(Owner(p), va));
    }
  }

  lemma CollectedEntry(s: State, p: Path, i: nat, acc: map<nat, Frame>, acc1: map<nat, Frame>, acc2: map<nat, Frame>)
    requires Depth(p) < 3 && Collected(s, p, i, acc, acc1) && Collected(s, Sub(p, i), WORDS, acc1, acc2)
    ensures Collected(s, p, i + 1, acc, acc2)
  {
    hide Seen, Lookup;
    assert Owner(Sub(p, i)) == Owner(p);
    forall va
      ensures Seen(s, p, i + 1, va) <==> Seen(s, p, i, va) || Seen(s, Sub(p, i), WORDS, va)
    {
      SeenEntry(s, p, i, va);
    }
  }

  lemma CollectedSlot(s: State, p: Path, i: nat, acc: map<nat, Frame>, acc1: map<nat, Frame>)
    requires Depth(p) == 3 && Proper(p) && i < WORDS && PathNumber(p) * 512 + i < USER_PAGES
    requires Slot(s.m, s.t, p, i).valid && Slot(s.m, s.t, p, i).cow && Collected(s, p, i, acc, acc1)
    ensures Collected(s, p, i + 1, acc, acc1[(PathNumber(p) * 512 + i) * 0x1000 := Slot(s.m, s.t, p, i).frame])
  {
    SlotOfAddress(p, i);
    assert Lookup(s.m, s.t, Owner(p), (PathNumber(p) * 512 + i) * 0x1000) == Slot(s.m, s.t, p, i);
    hide Seen, Lookup, Slot, PathNumber, Index3, Path3;
    forall va
      ensures Seen(s, p, i + 1, va) <==> Seen(s, p, i, va) || va == (PathNumber(p) * 512 + i) * 0x1000
    {
      SeenSlot(s, p, i, va);
    }
  }

  lemma EntryOf(s: State, p: Path, i: nat)
    requires Good(s) && p in s.t && i < WORDS
    ensures s.t[p] in s.m
    ensures Depth(p) < 3 ==> (s.m[s.t[p]][i].valid <==> Sub(p, i) in s.t)
    ensures Depth(p) < 3 && s.m[s.t[p]][i].valid ==> s.t[Sub(p, i)] == s.m[s.t[p]][i].frame
    ensures Depth(p) == 3 ==> Slot(s.m, s.t, p, i) == if s.m[s.t[p]][i].valid then s.m[s.t[p]][i] else ZERO
  {
    if Depth(p) < 3 {
      assert Linked(s.m, s.t, p, i);
    }
  }

  /** `collect_cow_pages`, one level per call; `number` is the address prefix built from the indices. */
  method CollectTable(pa: PhysicalAllocator, table: Frame, level: nat, number: nat, acc: map<nat, Frame>,
                      ghost s: State, ghost p: Path)
    returns (r: map<nat, Frame>)
    requires pa.mem == s.m && Good(s) && p in s.t && s.t[p] == table && Depth(p) == level <= 3
    requires Proper(p) && LowerHalf(p) && PathNumber(p) == number
    ensures Collected(s, p, EntryBound(level), acc, r)
    decreases 3 - level
  {
    hide Good, Collected, Slot, PathNumber;
    r := acc;
    NothingSeen(s, p, acc);
    for i := 0 to EntryBound(level)
      invariant Collected(s, p, i, acc, r)
    {
      EntryOf(s, p, i);
      var w := pa.mem[table][i];
      if level == 3 {
        LowerHalfNumber(p, i);
        if w.valid && w.cow {
          CollectedSlot(s, p, i, acc, r);
          r := r[(number * 512 + i) * 0x1000 := w.frame];
        } else {
          CollectedSkip(s, p, i, acc, r);
        }
      } else if w.valid {
        NextNumber(p, i);
        ghost var r1 := r;
        r := CollectTable(pa, w.frame, level + 1, number * 512 + i, r, s, Sub(p, i));
        CollectedEntry(s, p, i, acc, r1, r);
      } else {
        CollectedSkip(s, p, i, acc, r);
      }
    }
  }

  lemma NextNumber(p: Path, i: nat)
    requires Proper(p) && LowerHalf(p) && Depth(p) < 3 && i < EntryBound(Depth(p))
    ensures PathNumber(Sub(p, i)) == PathNumber(p) * 512 + i
    ensures Proper(Sub(p, i)) && LowerHalf(Sub(p, i)) && Depth(Sub(p, i)) == Depth(p) + 1
  {
  }

  /** `collect_cow_pages` inserting into `acc`: afterwards exactly the marked user pages were added. */
  method CollectCowPages(pa: PhysicalAllocator, root: Frame, acc: map<nat, Frame>, ghost id: nat, ghost s: State)
    returns (r: map<nat, Frame>)
    requires pa.mem == s.m && Good(s) && Root(id) in s.t && s.t[Root(id)] == root
    ensures forall va :: va in r <==> va in acc || Marked(s, id, va)
    ensures forall va :: va in r ==> r[va] == if Marked(s, id, va) then Lookup(s.m, s.t, id, va).frame else acc[va]
  {
    r := CollectTable(pa, root, 0, 0, acc, s, Root(id));
    forall va
      ensures Seen(s, Root(id), 256, va) <==> Marked(s, id, va)
    {
      SeenAtRoot(s, id, va);
    }
  }

  lemma SeenAtRoot(s: State, id: nat, va: nat)
    ensures Seen(s, Root(id), 256, va) <==> Marked(s, id, va)
  {
    assert Under(Root(id), Path1(id, va)) && Branch(Root(id), Path1(id, va)) == Index0(va);
    assert Under(Root(id), Path2(id, va)) && Branch(Root(id), Path2(id, va)) == Index0(va);
    assert Under(Root(id), Path3(id, va)) && Branch(Root(id), Path3(id, va)) == Index0(va);
    if va < USER_PAGES * 0x1000 {
      assert Index0(va) < 256;
    }
  }
}
