/** Copy-on-write address spaces: fork shares frames, the write-fault handler makes a page private.

  The reference is a world in which every fork copied all pages at once, so each process simply owns
  its pages.  What processes read is the same in both.
 */
module CopyOnWrite {
  import opened Options
  import opened PhysicalMemory
  import opened PageTables
  import opened Mapping
  import opened TableCopy
  import opened CowPages
  import DeepCopy

  // ---------------------------------------------------------------------------
  // The reference world: every process owns its pages
  // ---------------------------------------------------------------------------

  datatype UserPage = UserPage(words: Page, writable: bool)

  /** One mmap region; only anonymous demand-paged regions matter to the fault handler. */
  datatype Region = Region(base: nat, length: nat, demand: bool)

  datatype Process = Process(pages: map<nat, UserPage>, regions: seq<Region>)

  type World = map<nat, Process>

  datatype Outcome = Value(word: Word) | Done | Fault

  function InDemand(regions: seq<Region>, va: nat): bool {
    exists k :: 0 <= k < |regions| && regions[k].demand && regions[k].base <= va < regions[k].base + regions[k].length
  }

  /** The process once the page `va` it touches is present, if it may touch it at all. */
  function Touch(p: Process, va: nat): Option<Process> {
    if va in p.pages then Some(p)
    else if InDemand(p.regions, va) then Some(p.(pages := p.pages[va := UserPage(ZeroPage(), true)]))
    else None
  }

  function EagerRead(w: World, id: nat, va: nat, i: nat): (World, Outcome)
    requires id in w && i < WORDS
  {
    match Touch(w[id], va)
    case None => (w, Fault)
    case Some(p) => (w[id := p], Value(p.pages[va].words[i]))
  }

  function EagerWrite(w: World, id: nat, va: nat, i: nat, x: Word): (World, Outcome)
    requires id in w && i < WORDS
  {
    match Touch(w[id], va)
    case None => (w, Fault)
    case Some(p) =>
      if p.pages[va].writable
      then (w[id := p.(pages := p.pages[va := p.pages[va].(words := p.pages[va].words[i := x])])], Done)
      else (w, Fault)
  }

  function EagerFork(w: World, parent: nat, child: nat): World
    requires parent in w
  {
    w[child := w[parent]]
  }

  // ---------------------------------------------------------------------------
  // The invariant of the shared frames
  // ---------------------------------------------------------------------------

  function L(s: State, id: nat, va: nat): Word {
    Lookup(s.m, s.t, id, va)
  }

  ghost predicate PageVa(va: nat) {
    va % 0x1000 == 0 && va < USER_PAGES * 0x1000
  }

  ghost predicate Writes(s: State, id: nat, va: nat) {
    L(s, id, va).valid && L(s, id, va).ap == USER_READWRITE
  }

  /** User leaves name RAM, are readable by user code, and a CoW mark means read-only. */
  ghost predicate UserLeaves(s: State) {
    forall id, va :: L(s, id, va).valid ==>
      && L(s, id, va).frame in s.m
      && (L(s, id, va).ap == USER_READWRITE || L(s, id, va).ap == USER_READONLY)
      && (L(s, id, va).cow ==> L(s, id, va).ap == USER_READONLY)
  }

  /** A frame that some process may write is mapped nowhere else. */
  ghost predicate OneWriter(s: State) {
    forall id, va, id', va' :: Writes(s, id, va) && L(s, id', va').valid ==>
      L(s, id', va').frame == L(s, id, va).frame ==> id' == id && PageNumber(va') == PageNumber(va)
  }

  /** `cow_pages` of `id` is exactly the set of its marked leaves. */
  ghost predicate CowExact(s: State, id: nat, cow: map<nat, Frame>) {
    && (forall va :: va in cow <==> Marked(s, id, va))
    && (forall va :: va in cow ==> cow[va] == L(s, id, va).frame)
  }

  ghost predicate RootsAre(s: State, roots: map<nat, Frame>) {
    && (forall id :: id in roots <==> Root(id) in s.t)
    && (forall id :: id in roots ==> s.t[Root(id)] == roots[id])
    && (forall q :: q in s.t ==> Owner(q) in roots)
  }

  ghost predicate Inv(s: State, roots: map<nat, Frame>, cow: map<nat, map<nat, Frame>>) {
    && Good(s) && RootsAre(s, roots) && UserLeaves(s) && OneWriter(s)
    && cow.Keys == roots.Keys && forall id :: id in roots ==> CowExact(s, id, cow[id])
  }

  ghost predicate Present(s: State, id: nat, va: nat) {
    PageVa(va) && L(s, id, va).valid && L(s, id, va).frame in s.m
  }

  /** What process `id` can see: its user pages, a marked page counting as writable. */
  ghost function Pages(s: State, id: nat): map<nat, UserPage> {
    map va: nat | va < USER_PAGES * 0x1000 && Present(s, id, va) ::
      UserPage(s.m[L(s, id, va).frame], L(s, id, va).ap == USER_READWRITE || L(s, id, va).cow)
  }

  ghost function WorldOf(s: State, roots: map<nat, Frame>, regions: map<nat, seq<Region>>): World
    requires roots.Keys == regions.Keys
  {
    map id | id in roots :: Process(Pages(s, id), regions[id])
  }

  // ---------------------------------------------------------------------------
  // Writing a word
  // ---------------------------------------------------------------------------

  ghost predicate SameLookups(s: State, s': State) {
    forall id, va :: L(s', id, va) == L(s, id, va)
  }

  lemma SlotsToLookups(s: State, s': State)
    requires SameSlots(s.m, s.t, s'.m, s'.t)
    ensures SameLookups(s, s')
  {
    hide Slot, Index0, Index1, Index2, Index3;
  }

  /** The state after word `i` of frame `f` becomes `x`. */
  function Poked(s: State, f: Frame, i: nat, x: Word): State
    requires f in s.m && i < WORDS
  {
    s.(m := s.m[f := s.m[f][i := x]])
  }

  lemma LeafFrame(s: State, id: nat, va: nat)
    requires Good(s) && L(s, id, va).valid
    ensures NotATable(s.t, L(s, id, va).frame) && L(s, id, va).frame !in s.free
  {
    assert LeafClear(s.m, s.t, s.free, Path3(id, va), Index3(va));
  }

  lemma PokedInv(s: State, roots: map<nat, Frame>, cow: map<nat, map<nat, Frame>>, f: Frame, i: nat, x: Word)
    requires Inv(s, roots, cow) && f in s.m && f !in s.free && NotATable(s.t, f) && i < WORDS
    ensures Inv(Poked(s, f, i, x), roots, cow) && SameLookups(s, Poked(s, f, i, x))
  {
    var s' := Poked(s, f, i, x);
    FillFrame(s.m, s.t, s.free, f, s.m[f][i := x], s'.m);
    SlotsToLookups(s, s');
    hide Forest, Separated, Lookup, Slot, SameSlots;
    assert Good(s');
    assert forall id, va :: Marked(s', id, va) <==> Marked(s, id, va) by { MarkedSame(s, s'); }
    forall id | id in roots
      ensures CowExact(s', id, cow[id])
    {
      assert CowExact(s, id, cow[id]);
    }
  }

  lemma MarkedSame(s: State, s': State)
    requires SameLookups(s, s')
    ensures forall id, va :: Marked(s', id, va) <==> Marked(s, id, va)
  {
    hide Lookup;
    forall id, va
      ensures Marked(s', id, va) <==> Marked(s, id, va)
    {
      assert L(s', id, va) == L(s, id, va);
    }
  }

  lemma PagesAt(s: State, id: nat)
    ensures forall va :: va in Pages(s, id) <==> Present(s, id, va)
    ensures forall va :: Present(s, id, va) ==>
              Pages(s, id)[va] ==
              UserPage(s.m[L(s, id, va).frame], L(s, id, va).ap == USER_READWRITE || L(s, id, va).cow)
  {
    hide Lookup;
  }

  /** Two page maps are equal when they agree page by page. */
  lemma PagesEqual(a: map<nat, UserPage>, b: map<nat, UserPage>)
    requires forall va :: va in a <==> va in b
    requires forall va :: va in a ==> a[va] == b[va]
    ensures a == b
  {
  }

  /** A write to a page only its owner maps shows up in that page alone. */
  lemma PokedPages(s: State, id: nat, va: nat, i: nat, x: Word, s': State)
    requires OneWriter(s) && PageVa(va) && Writes(s, id, va) && i < WORDS
    requires L(s, id, va).frame in s.m && s' == Poked(s, L(s, id, va).frame, i, x) && SameLookups(s, s')
    ensures va in Pages(s, id)
    ensures Pages(s', id) == Pages(s, id)[va := Pages(s, id)[va].(words := Pages(s, id)[va].words[i := x])]
    ensures forall id' :: id' != id ==> Pages(s', id') == Pages(s, id')
  {
    hide L, Pages;
    var f := L(s, id, va).frame;
    forall id', va' | Present(s, id', va') && L(s, id', va').frame == f
      ensures id' == id && va' == va
    {
      assert L(s, id', va').valid;
      SamePageNumber(va, va');
    }
    forall id', va'
      ensures Present(s', id', va') <==> Present(s, id', va')
    {
      assert L(s', id', va') == L(s, id', va');
    }
    assert Present(s, id, va);
    PagesAt(s, id);
    PagesAt(s', id);
    PagesEqual(Pages(s', id), Pages(s, id)[va := Pages(s, id)[va].(words := Pages(s, id)[va].words[i := x])]);
    forall id' | id' != id
      ensures Pages(s', id') == Pages(s, id')
    {
      PagesAt(s, id');
      PagesAt(s', id');
      PagesEqual(Pages(s', id'), Pages(s, id'));
    }
  }

  // ---------------------------------------------------------------------------
  // Mapping a page of one's own
  // ---------------------------------------------------------------------------

  /** Only the page of `va` in `id` changed: it is now the writable frame `g`, fresh off the list. */
  ghost predicate NewPage(s: State, s': State, id: nat, va: nat, w: Word) {
    && Good(s) && Good(s') && PageVa(va)
    && w.valid && w.ap == USER_READWRITE && !w.cow && w.frame in s.free && w.frame in s'.m
    && Remaps(s.m, s.t, s'.m, s'.t, id, va, w)
    && PagesKept(s.m, s.t, s.free, s'.m)
  }

  lemma NewPageLookup(s: State, s': State, id: nat, va: nat, w: Word, id': nat, va': nat)
    requires NewPage(s, s', id, va, w)
    ensures L(s', id', va') == if id' == id && PageNumber(va') == PageNumber(va) then w else L(s, id', va')
    ensures PageVa(va') && PageNumber(va') == PageNumber(va) ==> va' == va
    ensures L(s, id', va').valid ==> L(s, id', va').frame != w.frame
    ensures L(s, id', va').valid && L(s, id', va').frame in s.m ==>
              L(s, id', va').frame in s'.m && s'.m[L(s, id', va').frame] == s.m[L(s, id', va').frame]
  {
    hide Good, Lookup;
    if PageVa(va') && PageNumber(va') == PageNumber(va) {
      SamePageNumber(va, va');
    }
    if L(s, id', va').valid {
      LeafFrame(s, id', va');
    }
  }

  lemma NewPageLeaves(s: State, s': State, id: nat, va: nat, w: Word)
    requires NewPage(s, s', id, va, w) && UserLeaves(s) && OneWriter(s)
    ensures UserLeaves(s') && OneWriter(s')
  {
    hide NewPage, L;
    assert w.valid && w.ap == USER_READWRITE && !w.cow && w.frame in s'.m by { NewPageWord(s, s', id, va, w); }
    forall id', va' | L(s', id', va').valid
      ensures L(s', id', va').frame in s'.m
      ensures L(s', id', va').ap == USER_READWRITE || L(s', id', va').ap == USER_READONLY
      ensures L(s', id', va').cow ==> L(s', id', va').ap == USER_READONLY
    {
      NewPageLookup(s, s', id, va, w, id', va');
    }
    forall id1, va1, id2, va2 | Writes(s', id1, va1) && L(s', id2, va2).valid
                                && L(s', id2, va2).frame == L(s', id1, va1).frame
      ensures id2 == id1 && PageNumber(va2) == PageNumber(va1)
    {
      NewPageLookup(s, s', id, va, w, id1, va1);
      NewPageLookup(s, s', id, va, w, id2, va2);
      if L(s', id1, va1) == L(s, id1, va1) && L(s', id2, va2) == L(s, id2, va2) {
        assert Writes(s, id1, va1);
      }
    }
  }

  lemma NewPageWord(s: State, s': State, id: nat, va: nat, w: Word)
    requires NewPage(s, s', id, va, w)
    ensures w.valid && w.ap == USER_READWRITE && !w.cow && w.frame in s'.m && Good(s') && PageVa(va)
  {
  }

  lemma NewPageCow(s: State, s': State, id: nat, va: nat, w: Word, id': nat, cow: map<nat, Frame>)
    requires NewPage(s, s', id, va, w) && CowExact(s, id', cow)
    ensures CowExact(s', id', if id' == id then cow - {va} else cow)
  {
    hide NewPage, L;
    NewPageWord(s, s', id, va, w);
    forall va'
      ensures Marked(s', id', va') <==> Marked(s, id', va') && !(id' == id && va' == va)
      ensures Marked(s', id', va') ==> L(s', id', va') == L(s, id', va')
    {
      NewPageLookup(s, s', id, va, w, id', va');
      MarkedIs(s, id', va');
      MarkedIs(s', id', va');
    }
  }

  lemma MarkedIs(s: State, id: nat, va: nat)
    ensures Marked(s, id, va) <==> PageVa(va) && L(s, id, va).valid && L(s, id, va).cow
  {
  }

  lemma NewPagePages(s: State, s': State, id: nat, va: nat, w: Word)
    requires NewPage(s, s', id, va, w) && UserLeaves(s)
    ensures Pages(s', id) == Pages(s, id)[va := UserPage(s'.m[w.frame], true)]
    ensures forall id' :: id' != id ==> Pages(s', id') == Pages(s, id')
  {
    hide L, Pages, NewPage;
    NewPageWord(s, s', id, va, w);
    forall id', va'
      ensures Present(s', id', va') <==> Present(s, id', va') || (id' == id && va' == va)
      ensures Present(s', id', va') && !(id' == id && va' == va) ==>
                L(s', id', va') == L(s, id', va') && s'.m[L(s', id', va').frame] == s.m[L(s, id', va').frame]
      ensures id' == id && va' == va ==> L(s', id', va') == w
    {
      NewPageLookup(s, s', id, va, w, id', va');
    }
    PagesAt(s, id);
    PagesAt(s', id);
    PagesEqual(Pages(s', id), Pages(s, id)[va := UserPage(s'.m[w.frame], true)]);
    forall id' | id' != id
      ensures Pages(s', id') == Pages(s, id')
    {
      PagesAt(s, id');
      PagesAt(s', id');
      PagesEqual(Pages(s', id'), Pages(s, id'));
    }
  }

  /** Making a page private, or bringing in a new one, keeps the invariant. */
  lemma NewPageInv(s: State, s': State, roots: map<nat, Frame>, cow: map<nat, map<nat, Frame>>, id: nat, va: nat,
                   w: Word)
    requires Inv(s, roots, cow) && NewPage(s, s', id, va, w) && RootsAre(s', roots) && id in roots
    ensures Inv(s', roots, cow[id := cow[id] - {va}])
  {
    hide NewPage, UserLeaves, OneWriter, CowExact, Good, RootsAre;
    NewPageWord(s, s', id, va, w);
    NewPageLeaves(s, s', id, va, w);
    forall id' | id' in roots
      ensures CowExact(s', id', cow[id := cow[id] - {va}][id'])
    {
      NewPageCow(s, s', id, va, w, id', cow[id']);
    }
  }

  // ---------------------------------------------------------------------------
  // Forking
  // ---------------------------------------------------------------------------

  /** The translations right after a successful `cow_copy_user` of `parent` into `c`. */
  function ForkedWord(s: State, parent: nat, c: nat, id: nat, va: nat): Word {
    if id == c then if Index0(va) < 256 then Cow(L(s, parent, va)) else ZERO
    else if id == parent && Index0(va) < 256 then Cow(L(s, parent, va))
    else L(s, id, va)
  }

  ghost predicate Forked(s: State, s': State, parent: nat, c: nat) {
    && Good(s) && Good(s') && parent != c && (forall va :: L(s, c, va) == ZERO)
    && PagesKept(s.m, s.t, s.free, s'.m)
    && forall id, va :: L(s', id, va) == ForkedWord(s, parent, c, id, va)
  }

  /** The finished lazy copy, read as translations. */
  lemma ForkedLookups(s: State, s': State, parent: nat, c: nat)
    requires Copying(Lazy, s, s', c) && Copied(Lazy, s, s', Root(parent), c, 256)
    requires s.free != [] && NewSpace(s.t, c) && parent != c
    requires Framed(RootAdded(s, c), s', Root(parent), Root(c))
    ensures Forked(s, s', parent, c)
  {
    AddRootGood(s, c);
    hide Good, Copied, Framed, SameSlots, Slot, PagesKept, Index0, Index1, Index2, Index3, Path3;
    forall va
      ensures L(s, c, va) == ZERO
    {
      NewSpaceEmpty(s, c);
    }
    forall id, va
      ensures L(s', id, va) == ForkedWord(s, parent, c, id, va)
    {
      if id == parent || id == c {
        DeepCopy.CopiedLookup(Lazy, s, s', parent, c, va);
      } else {
        OtherLookup(s, s', parent, c, id, va);
      }
    }
  }

  lemma OtherLookup(s: State, s': State, parent: nat, c: nat, id: nat, va: nat)
    requires Good(s) && s.free != [] && NewSpace(s.t, c) && id != parent && id != c
    requires Framed(RootAdded(s, c), s', Root(parent), Root(c))
    ensures L(s', id, va) == L(s, id, va)
  {
    AddRootGood(s, c);
    hide Good, Framed, Index0, Index1, Index2, Index3;
    var q := Path3(id, va);
    if Under(Root(parent), q) { UnderFacts(Root(parent), q); }
    if Under(Root(c), q) { UnderFacts(Root(c), q); }
    FramedSlots(RootAdded(s, c), s', Root(parent), Root(c), q, Index3(va));
  }

  lemma ForkedLeaves(s: State, s': State, parent: nat, c: nat)
    requires Forked(s, s', parent, c) && UserLeaves(s)
    ensures UserLeaves(s')
  {
    hide L, Good, Index0;
    forall id, va | L(s', id, va).valid
      ensures L(s', id, va).frame in s'.m
      ensures L(s', id, va).ap == USER_READWRITE || L(s', id, va).ap == USER_READONLY
      ensures L(s', id, va).cow ==> L(s', id, va).ap == USER_READONLY
    {
      assert L(s', id, va) == ForkedWord(s, parent, c, id, va);
      assert L(s, id, va).valid || L(s, parent, va).valid;
    }
  }

  lemma ForkedWriters(s: State, s': State, parent: nat, c: nat)
    requires Forked(s, s', parent, c) && UserLeaves(s) && OneWriter(s)
    ensures OneWriter(s')
  {
    hide L, Good, Index0;
    forall id1, va1, id2, va2 | Writes(s', id1, va1) && L(s', id2, va2).valid
                                && L(s', id2, va2).frame == L(s', id1, va1).frame
      ensures id2 == id1 && PageNumber(va2) == PageNumber(va1)
    {
      assert L(s', id1, va1) == ForkedWord(s, parent, c, id1, va1);
      assert L(s', id2, va2) == ForkedWord(s, parent, c, id2, va2);
      assert Writes(s, id1, va1) && L(s', id1, va1) == L(s, id1, va1);
      if id2 == c || (id2 == parent && Index0(va2) < 256) {
        assert L(s, parent, va2).valid && L(s, parent, va2).frame == L(s, id1, va1).frame;
        assert id1 == parent && PageNumber(va2) == PageNumber(va1);
        SameTopIndex(va1, va2);
      }
    }
  }

  lemma SameTopIndex(va: nat, va': nat)
    requires PageNumber(va) == PageNumber(va')
    ensures Index0(va) == Index0(va')
  {
    SlotIffPage(0, va, va');
  }

  lemma UserIndex(va: nat)
    requires PageVa(va)
    ensures Index0(va) < 256
  {
  }

  lemma ForkedCowOther(s: State, s': State, parent: nat, c: nat, id: nat, cow: map<nat, Frame>)
    requires Forked(s, s', parent, c) && id != parent && id != c && CowExact(s, id, cow)
    ensures CowExact(s', id, cow)
  {
    hide L, Good;
    forall va
      ensures Marked(s', id, va) <==> Marked(s, id, va)
      ensures L(s', id, va) == L(s, id, va)
    {
      assert L(s', id, va) == ForkedWord(s, parent, c, id, va);
      MarkedIs(s, id, va);
      MarkedIs(s', id, va);
    }
  }

  /** What `collect_cow_pages` returns for `id` when it inserts into `acc`. */
  ghost predicate CollectedInto(s: State, id: nat, r: map<nat, Frame>, acc: map<nat, Frame>) {
    && (forall va :: va in r <==> va in acc || Marked(s, id, va))
    && (forall va :: va in r ==> r[va] == if Marked(s, id, va) then L(s, id, va).frame else acc[va])
  }

  lemma ForkedCowParent(s: State, s': State, parent: nat, c: nat, acc: map<nat, Frame>, r: map<nat, Frame>)
    requires Forked(s, s', parent, c) && CowExact(s, parent, acc) && CollectedInto(s', parent, r, acc)
    ensures CowExact(s', parent, r)
  {
    hide L, Good, Index0;
    forall va | Marked(s, parent, va)
      ensures Marked(s', parent, va)
    {
      assert L(s', parent, va) == ForkedWord(s, parent, c, parent, va);
      MarkedIs(s, parent, va);
      MarkedIs(s', parent, va);
    }
  }

  lemma ForkedPages(s: State, s': State, parent: nat, c: nat)
    requires Forked(s, s', parent, c) && UserLeaves(s)
    ensures forall id :: id != c ==> Pages(s', id) == Pages(s, id)
    ensures Pages(s', c) == Pages(s, parent)
  {
    hide L, Good, Pages, Index0, PageVa;
    forall id, va | PageVa(va)
      ensures Present(s', id, va) <==> Present(s, if id == c then parent else id, va)
      ensures Present(s', id, va) ==> SameView(s, if id == c then parent else id, s', id, va)
    {
      ForkedView(s, s', parent, c, id, va);
    }
    forall id
      ensures Pages(s', id) == Pages(s, if id == c then parent else id)
    {
      PagesAt(s', id);
      PagesAt(s, if id == c then parent else id);
      PagesEqual(Pages(s', id), Pages(s, if id == c then parent else id));
    }
  }

  ghost predicate SameView(s: State, id: nat, s': State, id': nat, va: nat) {
    && L(s, id, va).frame in s.m && L(s', id', va).frame in s'.m
    && s'.m[L(s', id', va).frame] == s.m[L(s, id, va).frame]
    && ((L(s', id', va).ap == USER_READWRITE || L(s', id', va).cow) <==>
        (L(s, id, va).ap == USER_READWRITE || L(s, id, va).cow))
  }

  lemma ForkedView(s: State, s': State, parent: nat, c: nat, id: nat, va: nat)
    requires Forked(s, s', parent, c) && UserLeaves(s) && PageVa(va)
    ensures Present(s', id, va) <==> Present(s, if id == c then parent else id, va)
    ensures Present(s', id, va) ==> SameView(s, if id == c then parent else id, s', id, va)
  {
    UserIndex(va);
    hide L, Good, Index0;
    var from := if id == c then parent else id;
    assert L(s', id, va) == ForkedWord(s, parent, c, id, va);
    if L(s, from, va).valid {
      LeafFrame(s, from, va);
    }
  }

  /** The whole of `fork`'s memory part keeps the invariant and gives the child the parent's pages. */
  lemma ForkInv(s: State, s': State, roots: map<nat, Frame>, cow: map<nat, map<nat, Frame>>, parent: nat, c: nat,
                root: Frame, parentCow: map<nat, Frame>, childCow: map<nat, Frame>)
    requires Inv(s, roots, cow) && parent in roots && c !in roots && Forked(s, s', parent, c)
    requires RootsAre(s', roots[c := root])
    requires CollectedInto(s', parent, parentCow, cow[parent]) && CollectedInto(s', c, childCow, map[])
    ensures Inv(s', roots[c := root], cow[parent := parentCow][c := childCow])
  {
    hide Forked, Good, UserLeaves, OneWriter, CowExact, RootsAre, CollectedInto;
    ForkedGood(s, s', parent, c);
    ForkedLeaves(s, s', parent, c);
    ForkedWriters(s, s', parent, c);
    var roots', cow' := roots[c := root], cow[parent := parentCow][c := childCow];
    forall id | id in roots'
      ensures CowExact(s', id, cow'[id])
    {
      if id == parent {
        ForkedCowParent(s, s', parent, c, cow[parent], parentCow);
      } else if id == c {
        CollectedFresh(s', c, childCow);
      } else {
        ForkedCowOther(s, s', parent, c, id, cow[id]);
      }
    }
  }

  lemma ForkedGood(s: State, s': State, parent: nat, c: nat)
    requires Forked(s, s', parent, c)
    ensures Good(s') && parent != c
  {
  }

  lemma CollectedFresh(s: State, id: nat, r: map<nat, Frame>)
    requires CollectedInto(s, id, r, map[])
    ensures CowExact(s, id, r)
  {
  }

  // ---------------------------------------------------------------------------
  // A fresh page, from the free list into the table
  // ---------------------------------------------------------------------------

  /** PAGE_FLAGS_USER_DATA: access flag, inner shareable, PXN and UXN are the remaining bits. */
  const USER_DATA: Word := Word(true, true, USER_READWRITE, false, 0, 0x60_0000_0000_0700)

  /** The state once the head of the free list is filled with `page` and owned by the caller. */
  function Taken(s: State, page: Page): State
    requires s.free != []
  {
    State(s.m[s.free[0] := page], s.t, s.free[1..])
  }

  lemma TakenGood(s: State, page: Page)
    requires Good(s) && s.free != []
    ensures Good(Taken(s, page)) && SameSlots(s.m, s.t, Taken(s, page).m, s.t)
    ensures NotATable(s.t, s.free[0]) && s.free[0] !in s.free[1..] && s.free[0] in s.m
  {
    var m1 := s.m[s.free[0] := page];
    assert NotATable(s.t, s.free[0]);
    FillFrame(s.m, s.t, s.free, s.free[0], page, m1);
    SeparatedFewer(m1, s.t, s.free, s.free[1..]);
  }

  /** Mapping the page just taken: one page of one space is new, all else is as before. */
  lemma TakenMapped(s: State, s': State, id: nat, va: nat, page: Page, w: Word)
    requires Good(s) && s.free != [] && Good(s') && PageVa(va)
    requires w.valid && w.ap == USER_READWRITE && !w.cow && w.frame == s.free[0]
    requires Remaps(Taken(s, page).m, s.t, s'.m, s'.t, id, va, w)
    requires PagesKept(Taken(s, page).m, s.t, s.free[1..], s'.m)
    ensures NewPage(s, s', id, va, w) && s'.m[w.frame] == page
  {
    TakenGood(s, page);
    SlotsToLookups(s, Taken(s, page));
    hide Good, Lookup, SameSlots;
    assert w.frame in s.free;
    forall id', va'
      ensures Lookup(s'.m, s'.t, id', va') ==
              if id' == id && PageNumber(va') == PageNumber(va) then w else Lookup(s.m, s.t, id', va')
    {
      assert L(Taken(s, page), id', va') == L(s, id', va');
    }
  }

  lemma RootsGrow(s: State, s': State, roots: map<nat, Frame>, id: nat, free: seq<Frame>)
    requires RootsAre(s, roots) && id in roots && Grown(s.t, free, s'.t) && AddedIn(s.t, s'.t, id)
    ensures RootsAre(s', roots)
  {
    forall k
      ensures Root(k) in s'.t <==> Root(k) in s.t
    {
      assert Depth(Root(k)) == 0;
    }
  }

  /** A leaf that exists needs no new tables. */
  lemma NothingMissing(s: State, id: nat, va: nat)
    requires Good(s) && Root(id) in s.t && L(s, id, va).valid
    ensures Missing(s.m, s.t[Root(id)], va) == 0
  {
    MissingInForest(s.m, s.t, id, va);
  }

  lemma MissingSame(s: State, page: Page, id: nat, va: nat)
    requires Good(s) && s.free != [] && Root(id) in s.t
    ensures Good(Taken(s, page))
    ensures Missing(Taken(s, page).m, s.t[Root(id)], va) == Missing(s.m, s.t[Root(id)], va)
  {
    TakenGood(s, page);
    MissingInForest(s.m, s.t, id, va);
    MissingInForest(Taken(s, page).m, s.t, id, va);
  }
}
