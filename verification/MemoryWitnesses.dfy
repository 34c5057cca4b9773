/** Small machines on which the page-table code goes wrong, driven through the modelled operations. */
module MemoryWitnesses {
  import opened Options
  import opened ForkGuard
  import opened PhysicalMemory
  import opened PageTables
  import opened Mapping
  import opened TableCount
  import opened TableCopy
  import opened TableCensus
  import opened CopyOnWrite
  import opened CowCopy
  import opened AddressSpaces
  import opened DeepCopy

  const PAGE_FLAGS: Word := Word(true, true, 1, false, 0, 0)

  /** The forest of one address space whose only table is frame 0. */
  function OneRoot(): Tables {
    map[Root(0) := 0]
  }

  function Ram(n: nat): (m: Memory)
    ensures forall f: Frame :: f in m <==> f < n
    ensures forall f: Frame :: f in m ==> m[f] == ZeroPage()
  {
    if n == 0 then map[] else Ram(n - 1)[n - 1 := ZeroPage()]
  }

  /** `used` zeroed frames in use and `count` more on the free list. */
  method Frames(used: nat, count: nat) returns (pa: PhysicalAllocator)
    ensures fresh(pa) && pa.Valid() && |pa.free| == count
    ensures forall f: Frame :: f in pa.mem <==> f < used + count
    ensures forall f :: f in pa.free ==> used <= f
    ensures forall f: Frame :: f < used ==> pa.mem[f] == ZeroPage()
  {
    pa := new PhysicalAllocator(Ram(used + count));
    for f := used to used + count
      invariant pa.Valid() && |pa.free| == f - used
      invariant forall g: Frame :: g in pa.mem <==> g < used + count
      invariant forall g :: g in pa.free ==> used <= g < f
      invariant forall g: Frame :: g < used ==> pa.mem[g] == ZeroPage()
    {
      pa.FreePage(f);
    }
  }

  /** The same with frame 0 as an empty root table. */
  method Machine(used: nat, count: nat) returns (pa: PhysicalAllocator)
    requires 0 < used
    ensures fresh(pa) && Sound(pa, OneRoot()) && |pa.free| == count
    ensures forall f: Frame :: f in pa.mem <==> f < used + count
    ensures forall f :: f in pa.free ==> used <= f
    ensures forall va :: Lookup(pa.mem, OneRoot(), 0, va) == ZERO
    ensures forall va :: Missing(pa.mem, 0, va) == 3
  {
    pa := Frames(used, count);
    EmptyRoot(pa);
  }

  lemma EmptyRoot(pa: PhysicalAllocator)
    requires pa.Valid() && 0 in pa.mem && pa.mem[0] == ZeroPage() && 0 !in pa.free
    ensures Sound(pa, OneRoot())
    ensures forall va :: Lookup(pa.mem, OneRoot(), 0, va) == ZERO
    ensures forall va :: Missing(pa.mem, 0, va) == 3
  {
    var t := OneRoot();
    forall q, i: nat | q in t && i < WORDS
      ensures Linked(pa.mem, t, q, i)
    {
      assert q == Root(0);
    }
    forall va
      ensures Path3(0, va) !in t
    {
      assert Depth(Path3(0, va)) == 3;
    }
    EmptyMissing(pa.mem, 0);
  }

  /** Below an empty root every walk misses three tables. */
  lemma EmptyMissing(m: Memory, root: Frame)
    requires root in m && m[root] == ZeroPage()
    ensures forall va :: Missing(m, root, va) == 3
  {
    forall va
      ensures Missing(m, root, va) == 3
    {
      assert WalkPath(m, root, Path1(0, va)).None?;
    }
  }

  /** Two free frames, three missing tables: `map` fails and leaves an entry that leads into the free list. */
  method TornMap() returns (pa: PhysicalAllocator, ok: bool)
    ensures !ok && pa.Valid() && Ruined(pa, 0)
  {
    pa := Machine(2, 2);
    ghost var t;
    ok, t := MapPage(pa, 0, 0, 1, PAGE_FLAGS, 0, OneRoot());
    ghost var d :| 1 <= d <= 2 && Dangling(pa.mem, pa.free, 0, PathAt(d, 0, 0));
    WalkRuins(pa, 0, PathAt(d, 0, 0));
  }

  /** A process with one demand page, an empty root and two free frames: the first touch of the page is called
      handled, nothing is mapped, and the tables lead into the free list. */
  method TornFault() returns (sp: Spaces, handled: bool, mapped: bool)
    ensures handled && !mapped && 0 in sp.roots && Ruined(sp.pa, sp.roots[0])
  {
    hide Inv, Ruined, Missing, PageVa, WorldOf, L, IsFreeList;
    var pa := Frames(0, 3);
    sp := new Spaces(pa);
    NoRoots(sp);
    var ok := sp.SpawnSpace(0, [Region(0, 0x1000, true)]);
    EmptyMissing(pa.mem, sp.roots[0]);
    FirstTouch(sp);
    handled, mapped := sp.PageFault(0, 0, true, false);
  }

  lemma NoRoots(sp: Spaces)
    requires sp.Valid() && sp.World() == map[]
    ensures sp.roots == map[]
  {
    assert forall id :: id in sp.roots ==> id in sp.World();
  }

  /** The page is not there yet and may be asked for. */
  lemma FirstTouch(sp: Spaces)
    requires sp.Valid() && 0 in sp.World() && sp.World()[0] == Process(map[], [Region(0, 0x1000, true)])
    ensures 0 in sp.roots && 0 in sp.regions && PageVa(0)
    ensures !L(Now(sp.pa, sp.t), 0, 0).valid && InDemand(sp.regions[0], 0)
  {
    hide Inv, L, Pages;
    var s := Now(sp.pa, sp.t);
    assert 0 in sp.roots;
    WorldHas(s, sp.roots, sp.regions, 0);
    assert PageVa(0);
    InView(s, sp.roots, sp.cow, 0, 0);
    assert sp.regions[0][0].demand;
  }

  /** Frame 1 mapped at two addresses: unmapping one of them frees the frame under the other. */
  method UnmapShared() returns (pa: PhysicalAllocator)
    ensures pa.Valid() && Translate(pa.mem, 0, 0x1000).valid && Translate(pa.mem, 0, 0x1000).frame in pa.free
    ensures Ruined(pa, 0)
  {
    hide Forest, Separated, IsFreeList, Missing, Grown, AddedIn, PagesKept, Lookup, Translate;
    pa := Machine(2, 3);
    var ok;
    ghost var t, t';
    ghost var m0, free0 := pa.mem, pa.free;
    ok, t := MapPage(pa, 0, 0, 1, PAGE_FLAGS, 0, OneRoot());
    RootKept(OneRoot(), free0, t);
    SameFrames(m0, OneRoot(), free0, pa.mem);
    MappedFrame(pa, t, 0);
    SamePath();
    NoneMissing(pa, t, 0, 0x1000);
    ghost var m1, free1 := pa.mem, pa.free;
    ok, t' := MapPage(pa, 0, 0x1000, 1, PAGE_FLAGS, 0, t);
    RootKept(t, free1, t');
    SameFrames(m1, t, free1, pa.mem);
    ghost var m := pa.mem;
    assert Lookup(m, t', 0, 0) == Lookup(m, t', 0, 0x1000) == PAGE_FLAGS.(frame := 1);
    UnmapOne(pa, 0, 0, 0, t');
    StillThere(m, t', pa.mem);
    LookupIsTranslate(pa.mem, t', 0, 0x1000);
    assert MapsFree(pa.mem, pa.free, 0);
    PageRuins(pa, 0);
  }

  /** The first address under entry 1 of the root. */
  const SECOND: nat := 0x80_0000_0000

  /** Space 0 is alone, maps a page at address 0 and has tables for `SECOND` as well. */
  ghost predicate TwoPages(s: State) {
    && Root(0) in s.t && s.t[Root(0)] == 0 && (forall q :: q in s.t ==> Owner(q) == 0)
    && (forall va :: L(s, 0, va).valid ==> L(s, 0, va).frame in s.m)
    && L(s, 0, 0).valid && Path3(0, SECOND) in s.t
  }

  method MapTwo() returns (pa: PhysicalAllocator, ghost t: Tables)
    ensures fresh(pa) && Sound(pa, t) && TwoPages(Now(pa, t)) && |pa.free| >= 4
  {
    hide Forest, Separated, IsFreeList, Missing, Grown, AddedIn, PagesKept, Lookup, Remaps, TwoPages;
    pa := Machine(3, 10);
    ghost var t0, m0, free0 := OneRoot(), pa.mem, pa.free;
    var ok;
    ok, t := MapPage(pa, 0, 0, 1, PAGE_FLAGS, 0, t0);
    RootKept(t0, free0, t);
    SameFrames(m0, t0, free0, pa.mem);
    FrameTwo(t0, free0, t);
    MissingBound(pa.mem, 0, SECOND);
    ghost var t1, m1, free1 := t, pa.mem, pa.free;
    ok, t := MapPage(pa, 0, SECOND, 2, PAGE_FLAGS, 0, t1);
    RootKept(t1, free1, t);
    SameFrames(m1, t1, free1, pa.mem);
    OneOwner(t0, t1);
    OneOwner(t1, t);
    TwoMapped(State(m0, t0, free0), State(m1, t1, free1), Now(pa, t));
  }

  lemma TwoMapped(s0: State, s1: State, s2: State)
    requires (forall va :: L(s0, 0, va) == ZERO) && 1 in s2.m && 2 in s2.m
    requires Remaps(s0.m, s0.t, s1.m, s1.t, 0, 0, PAGE_FLAGS.(frame := 1))
    requires Remaps(s1.m, s1.t, s2.m, s2.t, 0, SECOND, PAGE_FLAGS.(frame := 2))
    requires Root(0) in s2.t && s2.t[Root(0)] == 0 && forall q :: q in s2.t ==> Owner(q) == 0
    ensures TwoPages(s2)
  {
    hide Slot, PageNumber, Path3, Index3;
    SecondPage();
    assert L(s2, 0, 0) == L(s1, 0, 0) == PAGE_FLAGS.(frame := 1);
    assert L(s2, 0, SECOND) == PAGE_FLAGS.(frame := 2);
    forall va | L(s2, 0, va).valid
      ensures L(s2, 0, va).frame in s2.m
    {
      assert L(s0, 0, va) == ZERO;
    }
    FirstTable(s2, Path3(0, SECOND), Index3(SECOND));
  }

  /** A parent with one page under entry 0 of its root and another under entry 1, and four free frames:
      `cow_copy_user` takes the root and the three tables of the first page, shares that page, runs out, and
      frees the page under the parent. */
  method TornFork() returns (pa: PhysicalAllocator, r: Option<Frame>)
    ensures r.None? && Ruined(pa, 0)
  {
    hide TwoPages, MapsFree, Lead, UserTables, NewSpace, Backed, SameOutside, Ruined;
    ghost var t, t';
    pa, t := MapTwo();
    while pa.count > 4
      invariant Sound(pa, t) && TwoPages(Now(pa, t)) && pa.count >= 4
      decreases pa.count
    {
      ghost var s := Now(pa, t);
      var f := pa.Alloc();
      FewerFree(s, pa.free);
    }
    FourFrames(Now(pa, t));
    var shared;
    r, shared, t' := CowCopyUser(pa, 0, 0, 1, t);
    PageRuins(pa, 0);
  }

  lemma FewerFree(s: State, free: seq<Frame>)
    requires Good(s) && TwoPages(s) && forall f :: f in free ==> f in s.free
    ensures TwoPages(s.(free := free)) && Separated(s.m, s.t, free)
  {
    SeparatedFewer(s.m, s.t, s.free, free);
    hide Good;
    assert forall va :: L(s.(free := free), 0, va) == L(s, 0, va);
  }

  lemma FrameTwo(t: Tables, free: seq<Frame>, t': Tables)
    requires Grown(t, free, t') && NotATable(t, 2) && 2 !in free
    ensures NotATable(t', 2)
  {
  }

  lemma OneOwner(t: Tables, t': Tables)
    requires AddedIn(t, t', 0) && forall q :: q in t ==> Owner(q) == 0
    ensures forall q :: q in t' ==> Owner(q) == 0
  {
  }

  lemma SecondPage()
    ensures PageNumber(SECOND) != PageNumber(0)
    ensures Path3(0, 0) == Sub(Sub(Sub(Root(0), 0), 0), 0) && Index3(0) == 0
    ensures Path3(0, SECOND) == Sub(Sub(Sub(Root(0), 1), 0), 0)
  {
  }

  /** With a page in the first slot of the first tables the walk takes three tables before it meets a page. */
  lemma FirstPage(m: Memory, t: Tables)
    requires Sub(Root(0), 0) in t && Sub(Sub(Root(0), 0), 0) in t && Sub(Sub(Sub(Root(0), 0), 0), 0) in t
    requires Slot(m, t, Sub(Sub(Sub(Root(0), 0), 0), 0), 0).valid
    ensures Lead(m, t, Root(0), 256) == 3
  {
    var p1 := Sub(Root(0), 0);
    var p2 := Sub(p1, 0);
    var p3 := Sub(p2, 0);
    FirstEntry(m, t, p3, WORDS);
    FirstEntry(m, t, p2, WORDS);
    FirstEntry(m, t, p1, WORDS);
    FirstEntry(m, t, Root(0), 256);
  }

  lemma FirstEntry(m: Memory, t: Tables, p: Path, n: nat)
    requires 0 < n && EntryLeafy(m, t, p, 0)
    ensures Leafy(m, t, p, n) && Lead(m, t, p, n) == EntryLead(m, t, p, 0)
  {
    assert !Leafy(m, t, p, 0) && Lead(m, t, p, 0) == 0;
    assert Leafy(m, t, p, 1) && Lead(m, t, p, 1) == EntryLead(m, t, p, 0);
    LeadGrows(m, t, p, 1, n);
  }

  /** The tables of both pages stand below the root. */
  lemma FourTables(s: State)
    requires Good(s) && Sub(Sub(Sub(Root(0), 0), 0), 0) in s.t && Sub(Sub(Sub(Root(0), 1), 0), 0) in s.t
    ensures Sub(Root(0), 0) in s.t && Sub(Sub(Root(0), 0), 0) in s.t && 4 <= |UserTables(s, 0)|
  {
    hide Good;
    var p1, q1 := Sub(Root(0), 0), Sub(Root(0), 1);
    var p2, q2 := Sub(p1, 0), Sub(q1, 0);
    var p3 := Sub(p2, 0);
    ParentIsIn(s, p3);
    ParentIsIn(s, p2);
    ParentIsIn(s, Sub(q2, 0));
    ParentIsIn(s, q2);
    assert Under(Root(0), p1) && Under(Root(0), p2) && Under(Root(0), p3) && Under(Root(0), q1);
    assert Branch(Root(0), p1) == 0 && Branch(Root(0), p2) == 0 && Branch(Root(0), p3) == 0 && Branch(Root(0), q1) == 1;
    AtLeast(UserTables(s, 0), {p1, p2, p3, q1});
    assert |{p1, p2, p3, q1}| == 4;
  }

  /** Four frames are enough to share the first page and too few for the fork. */
  lemma FourFrames(s: State)
    requires Good(s) && TwoPages(s) && |s.free| == 4
    ensures Root(0) in s.t && s.t[Root(0)] == 0 && Backed(s, 0) && NewSpace(s.t, 1)
    ensures Lead(s.m, s.t, Root(0), 256) == 3 && !ForkFits(|s.free|, |UserTables(s, 0)|)
  {
    hide Good, Path3, Index3, Lead, UserTables, Backed;
    PagesBacked(s, 0);
    SecondPage();
    FirstTable(s, Path3(0, 0), Index3(0));
    FourTables(s);
    FirstPage(s.m, s.t);
  }

  lemma FirstTable(s: State, p: Path, i: nat)
    requires Slot(s.m, s.t, p, i).valid
    ensures p in s.t
  {
  }

  lemma ParentIsIn(s: State, q: Path)
    requires Good(s) && q.Sub? && q in s.t
    ensures q.up in s.t
  {
  }

  lemma AtLeast(a: set<Path>, b: set<Path>)
    requires b <= a
    ensures |b| <= |a|
  {
    if b != {} {
      var x :| x in b;
      AtLeast(a - {x}, b - {x});
    }
  }

  lemma RootKept(t: Tables, free: seq<Frame>, t': Tables)
    requires Root(0) in t && t[Root(0)] == 0 && Grown(t, free, t')
    ensures Root(0) in t' && t'[Root(0)] == 0
  {
  }

  /** A mapped frame is neither free nor a table. */
  lemma MappedFrame(pa: PhysicalAllocator, t: Tables, va: nat)
    requires Sound(pa, t) && Lookup(pa.mem, t, 0, va).valid
    ensures Lookup(pa.mem, t, 0, va).frame !in pa.free && NotATable(t, Lookup(pa.mem, t, 0, va).frame)
    ensures Path3(0, va) in t
  {
    assert LeafClear(pa.mem, t, pa.free, Path3(0, va), Index3(va));
  }

  lemma NoneMissing(pa: PhysicalAllocator, t: Tables, va: nat, va': nat)
    requires Sound(pa, t) && Root(0) in t && Path3(0, va) in t && Path3(0, va') == Path3(0, va)
    ensures Missing(pa.mem, t[Root(0)], va') == 0
  {
    hide Missing, Separated, IsFreeList, Forest;
    MissingInForest(pa.mem, t, 0, va');
  }

  lemma SamePath()
    ensures Path3(0, 0x1000) == Path3(0, 0) && Index3(0x1000) == 1 && Index3(0) == 0
    ensures PageNumber(0x1000) == 1 && PageNumber(0) == 0
  {
  }

  lemma StillThere(m: Memory, t: Tables, m': Memory)
    requires OneSlot(m, t, m', t, Path3(0, 0), Index3(0), ZERO)
    ensures Lookup(m', t, 0, 0x1000) == Lookup(m, t, 0, 0x1000)
  {
    SamePath();
  }
}
