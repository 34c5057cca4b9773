/** The user address spaces of all processes as the kernel keeps them: page tables in physical memory,
    a `cow_pages` map and the mmap regions per process.

    Every run of forks, reads and writes shows its processes exactly what they would see had each
    fork copied every page at once, as long as frames last.  When they do not, the number of free frames
    decides beforehand whether an operation is refused cleanly or leaves the tables broken.
 */
module AddressSpaces {
  import opened Options
  import opened PhysicalMemory
  import opened PageTables
  import opened ForkGuard
  import opened Mapping
  import opened TableCount
  import opened TableCopy
  import opened TableCensus
  import opened CowPages
  import opened CopyOnWrite
  import opened CowCopy
  import DeepCopy

  /** A program is loaded with an empty table and its mmap regions; then user code touches memory and forks. */
  datatype Op =
    | Spawn(id: nat, regions: seq<Region>)
    | Read(id: nat, va: nat, i: nat)
    | Write(id: nat, va: nat, i: nat, x: Word)
    | Fork(id: nat, child: nat)

  /** Accesses name a page of the user half and a word in it. */
  ghost predicate WellFormed(op: Op) {
    match op
    case Spawn(_, _) => true
    case Read(_, va, i) => PageVa(va) && i < WORDS
    case Write(_, va, i, _) => PageVa(va) && i < WORDS
    case Fork(_, _) => true
  }

  ghost function WorldStep(w: World, op: Op): (World, Outcome)
    requires WellFormed(op)
  {
    match op
    case Spawn(id, regions) => if id !in w then (w[id := Process(map[], regions)], Done) else (w, Fault)
    case Read(id, va, i) => if id in w then EagerRead(w, id, va, i) else (w, Fault)
    case Write(id, va, i, x) => if id in w then EagerWrite(w, id, va, i, x) else (w, Fault)
    case Fork(id, child) => if id in w && child !in w then (EagerFork(w, id, child), Done) else (w, Fault)
  }

  /** The observations of a whole run in the reference world. */
  ghost function WorldRun(w: World, ops: seq<Op>): (World, seq<Outcome>)
    requires forall k :: 0 <= k < |ops| ==> WellFormed(ops[k])
  {
    if ops == [] then (w, [])
    else
      var (w1, obs) := WorldRun(w, ops[..|ops| - 1]);
      var (w2, o) := WorldStep(w1, ops[|ops| - 1]);
      (w2, obs + [o])
  }

  // ---------------------------------------------------------------------------
  // Running out of frames
  // ---------------------------------------------------------------------------

  /** The kernel's state at one moment. */
  datatype Snapshot = Snapshot(s: State, roots: map<nat, Frame>, cow: map<nat, map<nat, Frame>>,
                               regions: map<nat, seq<Region>>)

  ghost predicate Demands(v: Snapshot, id: nat, va: nat) {
    id in v.regions && id in v.roots && !L(v.s, id, va).valid && InDemand(v.regions[id], va)
  }

  /** The access takes no frame, or takes one that `map` then finds no tables for. */
  ghost predicate DemandStarves(v: Snapshot, id: nat, va: nat) {
    && Demands(v, id, va)
    && (v.s.free == [] || (|v.s.free| == 1 && 0 < Missing(v.s.m, v.roots[id], va)))
  }

  /** `op` is refused for want of frames and changes nothing a process can see. */
  ghost predicate Starves(v: Snapshot, op: Op) {
    match op
    case Spawn(id, _) => id !in v.roots && v.s.free == []
    case Read(id, va, _) => DemandStarves(v, id, va)
    case Write(id, va, _, _) =>
      || DemandStarves(v, id, va)
      || (id in v.roots && v.s.free == [] && L(v.s, id, va).valid && L(v.s, id, va).cow)
    case Fork(id, child) =>
      id in v.roots && child !in v.roots && |v.s.free| < 1 + Lead(v.s.m, v.s.t, Root(id), 256)
  }

  /** `op` runs out of frames half way and leaves tables that name free frames. */
  ghost predicate Breaks(v: Snapshot, op: Op) {
    match op
    case Spawn(_, _) => false
    case Read(id, va, _) => Demands(v, id, va) && 2 <= |v.s.free| <= Missing(v.s.m, v.roots[id], va)
    case Write(id, va, _, _) => Demands(v, id, va) && 2 <= |v.s.free| <= Missing(v.s.m, v.roots[id], va)
    case Fork(id, child) =>
      && id in v.roots && child !in v.roots
      && 1 + Lead(v.s.m, v.s.t, Root(id), 256) <= |v.s.free|
      && !ForkFits(|v.s.free|, |UserTables(v.s, id)|)
  }

  /** What the processes see of `v`. */
  ghost function WorldIn(v: Snapshot): World
    requires v.roots.Keys == v.regions.Keys
  {
    WorldOf(v.s, v.roots, v.regions)
  }

  /** `op` took the kernel from `v` to `v'` and answered `o`. */
  ghost predicate Answers(v: Snapshot, op: Op, o: Outcome, v': Snapshot) {
    && WellFormed(op) && v.roots.Keys == v.regions.Keys && v'.roots.Keys == v'.regions.Keys && !Breaks(v, op)
    && (WorldIn(v'), o) == if Starves(v, op) then (WorldIn(v), Fault) else WorldStep(WorldIn(v), op)
  }

  /** A run from snapshot to snapshot: each answer is the reference world's, or a refusal the free frames called for. */
  ghost predicate Explained(snaps: seq<Snapshot>, ops: seq<Op>, obs: seq<Outcome>) {
    && |snaps| == |obs| + 1 && |obs| == |ops|
    && forall k :: 0 <= k < |obs| ==> Answers(snaps[k], ops[k], obs[k], snaps[k + 1])
  }

  /** A run that is never short of frames answers exactly as the reference world does. */
  lemma {:induction false} NeverShort(snaps: seq<Snapshot>, ops: seq<Op>, obs: seq<Outcome>)
    requires Explained(snaps, ops, obs) && snaps[0].roots.Keys == snaps[0].regions.Keys
    requires forall k :: 0 <= k < |ops| ==> !Starves(snaps[k], ops[k])
    ensures forall k :: 0 <= k < |ops| ==> WellFormed(ops[k])
    ensures snaps[|ops|].roots.Keys == snaps[|ops|].regions.Keys
    ensures WorldRun(WorldIn(snaps[0]), ops) == (WorldIn(snaps[|ops|]), obs)
    decreases |ops|
  {
    hide WorldIn, WorldStep, Starves, Breaks;
    forall k | 0 <= k < |ops|
      ensures WellFormed(ops[k])
    {
      assert Answers(snaps[k], ops[k], obs[k], snaps[k + 1]);
    }
    if ops != [] {
      var n := |ops| - 1;
      assert Explained(snaps[..n + 1], ops[..n], obs[..n]) by {
        forall k | 0 <= k < n
          ensures Answers(snaps[..n + 1][k], ops[..n][k], obs[..n][k], snaps[..n + 1][k + 1])
        {
          assert Answers(snaps[k], ops[k], obs[k], snaps[k + 1]);
        }
      }
      NeverShort(snaps[..n + 1], ops[..n], obs[..n]);
      assert Answers(snaps[n], ops[n], obs[n], snaps[n + 1]);
      assert obs == obs[..n] + [obs[n]];
    }
  }

  // ---------------------------------------------------------------------------
  // The steps, seen from the reference world
  // ---------------------------------------------------------------------------

  lemma WorldsEqual(a: World, b: World)
    requires forall id :: id in a <==> id in b
    requires forall id :: id in a ==> a[id] == b[id]
    ensures a == b
  {
  }

  lemma WorldSame(s: State, s': State, roots: map<nat, Frame>, regions: map<nat, seq<Region>>)
    requires roots.Keys == regions.Keys && forall id :: id in roots ==> Pages(s', id) == Pages(s, id)
    ensures WorldOf(s', roots, regions) == WorldOf(s, roots, regions)
  {
    hide Pages;
    WorldsEqual(WorldOf(s', roots, regions), WorldOf(s, roots, regions));
  }

  lemma WorldOnePage(s: State, s': State, roots: map<nat, Frame>, regions: map<nat, seq<Region>>, id: nat, va: nat,
                     page: UserPage)
    requires roots.Keys == regions.Keys && id in roots
    requires Pages(s', id) == Pages(s, id)[va := page]
    requires forall id' :: id' != id ==> Pages(s', id') == Pages(s, id')
    ensures WorldOf(s', roots, regions) ==
            WorldOf(s, roots, regions)[id := Process(Pages(s, id)[va := page], regions[id])]
  {
    hide Pages;
    WorldsEqual(WorldOf(s', roots, regions),
                WorldOf(s, roots, regions)[id := Process(Pages(s, id)[va := page], regions[id])]);
  }

  lemma WorldForked(s: State, s': State, roots: map<nat, Frame>, regions: map<nat, seq<Region>>, parent: nat, c: nat,
                    root: Frame)
    requires Forked(s, s', parent, c) && UserLeaves(s)
    requires roots.Keys == regions.Keys && parent in roots && c !in roots
    ensures WorldOf(s', roots[c := root], regions[c := regions[parent]]) ==
            EagerFork(WorldOf(s, roots, regions), parent, c)
  {
    hide Pages, Forked, UserLeaves;
    ForkedPages(s, s', parent, c);
    WorldsEqual(WorldOf(s', roots[c := root], regions[c := regions[parent]]),
                EagerFork(WorldOf(s, roots, regions), parent, c));
  }

  /** A zeroed root maps nothing and changes no other translation. */
  lemma SpawnedLookups(s: State, roots: map<nat, Frame>, c: nat)
    requires Good(s) && RootsAre(s, roots) && c !in roots && s.free != []
    ensures Good(RootAdded(s, c)) && SameLookups(s, RootAdded(s, c))
    ensures forall va :: L(s, c, va) == ZERO
    ensures PagesKept(s.m, s.t, s.free, RootAdded(s, c).m)
  {
    Unused(s, roots, c);
    AddRootGood(s, c);
    SlotsToLookups(s, RootAdded(s, c));
    NewSpaceEmpty(s, c);
    hide Good, SameSlots, Slot, PagesKept, SameLookups, RootsAre, NewSpace;
    forall va
      ensures L(s, c, va) == ZERO
    {
      assert SlotOf(s, Path3(c, va), Index3(va)) == ZERO;
    }
  }

  lemma SpawnedInv(s: State, roots: map<nat, Frame>, cow: map<nat, map<nat, Frame>>, c: nat)
    requires Inv(s, roots, cow) && c !in roots && s.free != []
    ensures Inv(RootAdded(s, c), roots[c := s.free[0]], cow[c := map[]])
  {
    hide Good, L, PagesKept, SameLookups, UserLeaves, OneWriter, CowExact, RootsAre, RootAdded;
    SpawnedLookups(s, roots, c);
    SpawnedRoots(s, roots, c);
    SameFrames(s.m, s.t, s.free, RootAdded(s, c).m);
    SameLeaves(s, RootAdded(s, c));
    var roots', cow' := roots[c := s.free[0]], cow[c := map[]];
    forall id | id in roots'
      ensures CowExact(RootAdded(s, c), id, cow'[id])
    {
      if id == c {
        NoMarks(s, c);
        SameCow(s, RootAdded(s, c), c, map[]);
      } else {
        SameCow(s, RootAdded(s, c), id, cow[id]);
      }
    }
  }

  lemma SpawnedRoots(s: State, roots: map<nat, Frame>, c: nat)
    requires RootsAre(s, roots) && c !in roots && s.free != []
    ensures RootsAre(RootAdded(s, c), roots[c := s.free[0]])
  {
    assert forall id :: Owner(Root(id)) == id;
  }

  lemma SameLeaves(s: State, s': State)
    requires SameLookups(s, s') && s'.m.Keys == s.m.Keys && UserLeaves(s) && OneWriter(s)
    ensures UserLeaves(s') && OneWriter(s')
  {
    hide L;
    assert forall id, va :: L(s', id, va) == L(s, id, va);
  }

  lemma SameCow(s: State, s': State, id: nat, cow: map<nat, Frame>)
    requires SameLookups(s, s') && CowExact(s, id, cow)
    ensures CowExact(s', id, cow)
  {
    hide L;
    MarkedSame(s, s');
  }

  lemma NoMarks(s: State, c: nat)
    requires forall va :: L(s, c, va) == ZERO
    ensures CowExact(s, c, map[])
  {
    forall va
      ensures !Marked(s, c, va)
    {
      MarkedIs(s, c, va);
      assert L(s, c, va) == ZERO;
    }
  }

  lemma SpawnedPages(s: State, roots: map<nat, Frame>, cow: map<nat, map<nat, Frame>>, c: nat, id: nat)
    requires Inv(s, roots, cow) && c !in roots && s.free != []
    ensures Pages(RootAdded(s, c), id) == if id == c then map[] else Pages(s, id)
  {
    hide Good, L, Pages, RootAdded, PageVa;
    SpawnedLookups(s, roots, c);
    var s' := RootAdded(s, c);
    PagesAt(s, id);
    PagesAt(s', id);
    forall va
      ensures L(s', id, va) == L(s, id, va)
      ensures L(s, id, va).valid ==>
                && L(s, id, va).frame in s.m && L(s, id, va).frame in s'.m
                && s'.m[L(s, id, va).frame] == s.m[L(s, id, va).frame]
    {
      if L(s, id, va).valid {
        LeafFrame(s, id, va);
      }
    }
    PagesEqual(Pages(s', id), if id == c then map[] else Pages(s, id));
  }

  lemma WorldSpawned(s: State, roots: map<nat, Frame>, cow: map<nat, map<nat, Frame>>, regions: map<nat, seq<Region>>,
                     c: nat, mmap: seq<Region>)
    requires Inv(s, roots, cow) && c !in roots && s.free != [] && roots.Keys == regions.Keys
    ensures WorldOf(RootAdded(s, c), roots[c := s.free[0]], regions[c := mmap]) ==
            WorldOf(s, roots, regions)[c := Process(map[], mmap)]
  {
    hide Pages, Inv, RootAdded;
    forall id
      ensures Pages(RootAdded(s, c), id) == if id == c then map[] else Pages(s, id)
    {
      SpawnedPages(s, roots, cow, c, id);
    }
    WorldsEqual(WorldOf(RootAdded(s, c), roots[c := s.free[0]], regions[c := mmap]),
                WorldOf(s, roots, regions)[c := Process(map[], mmap)]);
  }

  /** A page is in the process's view exactly when its leaf is valid. */
  lemma InView(s: State, roots: map<nat, Frame>, cow: map<nat, map<nat, Frame>>, id: nat, va: nat)
    requires Inv(s, roots, cow) && id in roots && PageVa(va)
    ensures va in Pages(s, id) <==> L(s, id, va).valid
    ensures L(s, id, va).valid ==>
              && L(s, id, va).frame in s.m && L(s, id, va).frame !in s.free && NotATable(s.t, L(s, id, va).frame)
              && Pages(s, id)[va] ==
                 UserPage(s.m[L(s, id, va).frame], L(s, id, va).ap == USER_READWRITE || L(s, id, va).cow)
    ensures L(s, id, va).valid && L(s, id, va).cow ==> L(s, id, va).ap == USER_READONLY
    ensures va in cow[id] <==> L(s, id, va).valid && L(s, id, va).cow
    ensures va in cow[id] ==> cow[id][va] == L(s, id, va).frame
  {
    hide Good, L, Pages, RootsAre, OneWriter;
    PagesAt(s, id);
    assert CowExact(s, id, cow[id]);
    MarkedIs(s, id, va);
    if L(s, id, va).valid {
      assert Good(s);
      LeafFrame(s, id, va);
    }
  }

  /** The demand page of a process: absent before, all zero after. */
  lemma WorldDemand(s: State, s': State, roots: map<nat, Frame>, cow: map<nat, map<nat, Frame>>,
                    regions: map<nat, seq<Region>>, id: nat, va: nat, w: Word)
    requires Inv(s, roots, cow) && id in roots && roots.Keys == regions.Keys
    requires NewPage(s, s', id, va, w) && s'.m[w.frame] == ZeroPage()
    requires !L(s, id, va).valid && InDemand(regions[id], va)
    ensures var world := WorldOf(s, roots, regions);
            && Touch(world[id], va).Some?
            && WorldOf(s', roots, regions) == world[id := Touch(world[id], va).value]
  {
    NewPageWord(s, s', id, va, w);
    InView(s, roots, cow, id, va);
    NewPagePages(s, s', id, va, w);
    hide Pages, NewPage, Good, L, InDemand, RootsAre, UserLeaves, OneWriter, CowExact;
    WorldOnePage(s, s', roots, regions, id, va, UserPage(ZeroPage(), true));
  }

  /** Giving a process its own copy of a shared page changes nothing it or anyone else can see. */
  lemma WorldCow(s: State, s': State, roots: map<nat, Frame>, cow: map<nat, map<nat, Frame>>,
                 regions: map<nat, seq<Region>>, id: nat, va: nat, w: Word)
    requires Inv(s, roots, cow) && id in roots && roots.Keys == regions.Keys && va in cow[id]
    requires NewPage(s, s', id, va, w) && cow[id][va] in s.m && s'.m[w.frame] == s.m[cow[id][va]]
    ensures WorldOf(s', roots, regions) == WorldOf(s, roots, regions)
  {
    hide Pages, NewPage, Good, L, RootsAre, UserLeaves, OneWriter, CowExact, PageVa, WorldOf;
    NewPageWord(s, s', id, va, w);
    InView(s, roots, cow, id, va);
    NewPagePages(s, s', id, va, w);
    assert Pages(s', id) == Pages(s, id);
    WorldSame(s, s', roots, regions);
  }

  lemma WorldWrite(s: State, s': State, roots: map<nat, Frame>, cow: map<nat, map<nat, Frame>>,
                   regions: map<nat, seq<Region>>, id: nat, va: nat, i: nat, x: Word)
    requires Inv(s, roots, cow) && id in roots && roots.Keys == regions.Keys
    requires PageVa(va) && Writes(s, id, va) && i < WORDS && L(s, id, va).frame in s.m
    requires s' == Poked(s, L(s, id, va).frame, i, x)
    ensures Inv(s', roots, cow)
    ensures EagerWrite(WorldOf(s, roots, regions), id, va, i, x) == (WorldOf(s', roots, regions), Done)
  {
    InView(s, roots, cow, id, va);
    PokedInv(s, roots, cow, L(s, id, va).frame, i, x);
    PokedPages(s, id, va, i, x, s');
    hide Pages, Good, L, RootsAre, UserLeaves, OneWriter, CowExact;
    WorldOnePage(s, s', roots, regions, id, va, Pages(s, id)[va].(words := Pages(s, id)[va].words[i := x]));
  }

  /** Once the page has been touched, the access goes on as if it had always been there. */
  lemma TouchedFirst(w: World, id: nat, va: nat, i: nat, x: Word)
    requires id in w && i < WORDS && Touch(w[id], va).Some?
    ensures EagerRead(w[id := Touch(w[id], va).value], id, va, i) == EagerRead(w, id, va, i)
    ensures va !in w[id].pages ==>
              EagerWrite(w[id := Touch(w[id], va).value], id, va, i, x) == EagerWrite(w, id, va, i, x)
  {
    var w1 := w[id := Touch(w[id], va).value];
    assert w1[id := w1[id]] == w1;
    if va !in w[id].pages {
      var p := EagerWrite(w, id, va, i, x).0[id];
      assert w1[id := p] == w[id := p];
    }
  }

  // ---------------------------------------------------------------------------
  // Steps nobody sees
  // ---------------------------------------------------------------------------

  /** Same translations, same pages: the invariant and the world stay. */
  lemma Unseen(s: State, s': State, roots: map<nat, Frame>, cow: map<nat, map<nat, Frame>>,
               regions: map<nat, seq<Region>>)
    requires Inv(s, roots, cow) && roots.Keys == regions.Keys && Good(s') && s'.t == s.t
    requires SameLookups(s, s') && PagesKept(s.m, s.t, s.free, s'.m)
    ensures Inv(s', roots, cow) && WorldOf(s', roots, regions) == WorldOf(s, roots, regions)
  {
    hide Good, L, PagesKept, SameLookups, UserLeaves, OneWriter, CowExact, Pages;
    SameFrames(s.m, s.t, s.free, s'.m);
    SameLeaves(s, s');
    forall id | id in roots
      ensures CowExact(s', id, cow[id])
    {
      SameCow(s, s', id, cow[id]);
    }
    forall id | id in roots
      ensures Pages(s', id) == Pages(s, id)
    {
      UnseenPages(s, s', id);
    }
    WorldSame(s, s', roots, regions);
  }

  lemma UnseenPages(s: State, s': State, id: nat)
    requires Good(s) && UserLeaves(s) && SameLookups(s, s') && PagesKept(s.m, s.t, s.free, s'.m)
    ensures Pages(s', id) == Pages(s, id)
  {
    hide Good, L, Pages, PageVa;
    PagesAt(s, id);
    PagesAt(s', id);
    forall va
      ensures L(s', id, va) == L(s, id, va)
      ensures L(s, id, va).valid ==>
                && L(s, id, va).frame in s.m && L(s, id, va).frame in s'.m
                && s'.m[L(s, id, va).frame] == s.m[L(s, id, va).frame]
    {
      if L(s, id, va).valid {
        LeafFrame(s, id, va);
      }
    }
    PagesEqual(Pages(s', id), Pages(s, id));
  }

  /** A frame taken off the list and lost: nobody maps it, nobody misses it. */
  lemma LostFrame(s: State, page: Page, roots: map<nat, Frame>, cow: map<nat, map<nat, Frame>>,
                  regions: map<nat, seq<Region>>)
    requires Inv(s, roots, cow) && roots.Keys == regions.Keys && s.free != []
    ensures Inv(Taken(s, page), roots, cow) && WorldOf(Taken(s, page), roots, regions) == WorldOf(s, roots, regions)
    ensures SameLookups(s, Taken(s, page))
  {
    hide Forest, Separated, UserLeaves, OneWriter, CowExact, RootsAre, WorldOf, SameSlots;
    TakenGood(s, page);
    SlotsToLookups(s, Taken(s, page));
    assert s.free[0] in s.free;
    Unseen(s, Taken(s, page), roots, cow, regions);
  }

  lemma OutsideSlots(s: State, m': Memory, free': seq<Frame>)
    requires Good(s) && DeepCopy.SameOutside(s.m, s.free, m')
    ensures SameSlots(s.m, s.t, m', s.t) && PagesKept(s.m, s.t, s.free, m')
  {
    assert forall q :: q in s.t ==> s.t[q] in s.m && s.t[q] !in s.free;
  }

  /** A fork rolled back: the same frames are free, the others hold what they held. */
  lemma ForkUndone(s: State, s': State, roots: map<nat, Frame>, cow: map<nat, map<nat, Frame>>,
                   regions: map<nat, seq<Region>>)
    requires Inv(s, roots, cow) && roots.Keys == regions.Keys && Good(s') && s'.t == s.t
    requires DeepCopy.SameOutside(s.m, s.free, s'.m)
    ensures Inv(s', roots, cow) && WorldOf(s', roots, regions) == WorldOf(s, roots, regions)
  {
    hide Forest, Separated, UserLeaves, OneWriter, CowExact, RootsAre, WorldOf, SameSlots, PagesKept;
    OutsideSlots(s, s'.m, s'.free);
    SlotsToLookups(s, s');
    Unseen(s, s', roots, cow, regions);
  }

  lemma ForkFailed(pa: PhysicalAllocator, t: Tables, s: State, roots: map<nat, Frame>,
                   cow: map<nat, map<nat, Frame>>, regions: map<nat, seq<Region>>)
    requires Inv(s, roots, cow) && roots.Keys == regions.Keys && s.t == t
    requires Sound(pa, t) ==> DeepCopy.SameOutside(s.m, s.free, pa.mem)
    ensures Sound(pa, t) <==> pa.Valid() && Inv(Now(pa, t), roots, cow)
    ensures Sound(pa, t) ==> WorldOf(Now(pa, t), roots, regions) == WorldOf(s, roots, regions)
  {
    hide Forest, Separated, UserLeaves, OneWriter, CowExact, RootsAre, WorldOf, IsFreeList;
    if Sound(pa, t) {
      DeepCopy.FreeListFacts(pa, t);
      ForkUndone(s, Now(pa, t), roots, cow, regions);
    } else if pa.Valid() && Inv(Now(pa, t), roots, cow) {
      DeepCopy.SoundAgain(pa, t);
    }
  }

  lemma UserBacked(s: State, id: nat)
    requires Good(s) && UserLeaves(s)
    ensures Backed(s, id)
  {
    hide Good, L;
    PagesBacked(s, id);
  }

  /** Over a ruined root this forest is none either. */
  lemma NoForest(pa: PhysicalAllocator, t: Tables, roots: map<nat, Frame>, cow: map<nat, map<nat, Frame>>, id: nat)
    requires pa.Valid() && id in roots && Ruined(pa, roots[id])
    ensures !Inv(Now(pa, t), roots, cow)
  {
    hide Forest, Separated, UserLeaves, OneWriter, CowExact, IsFreeList;
    if Inv(Now(pa, t), roots, cow) { DeepCopy.SoundAgain(pa, t); }
  }

  // ---------------------------------------------------------------------------
  // The kernel's state
  // ---------------------------------------------------------------------------

  class Spaces {
    const pa: PhysicalAllocator
    var roots: map<nat, Frame>
    var cow: map<nat, map<nat, Frame>>
    var regions: map<nat, seq<Region>>
    ghost var t: Tables

    ghost predicate Valid()
      reads this, pa
    {
      pa.Valid() && roots.Keys == regions.Keys && Inv(Now(pa, t), roots, cow)
    }

    ghost function Snap(): Snapshot
      reads this, pa
    {
      Snapshot(Now(pa, t), roots, cow, regions)
    }

    ghost function World(): World
      reads this, pa
      requires Valid()
    {
      WorldOf(Now(pa, t), roots, regions)
    }

    /** A machine with memory `ram` in `pa` and no process yet. */
    constructor (pa: PhysicalAllocator)
      requires pa.Valid()
      ensures this.pa == pa && Valid() && World() == map[]
    {
      this.pa := pa;
      roots, cow, regions, t := map[], map[], map[], map[];
      new;
      DeepCopy.ListFacts(pa);
    }

    /** The leaf word the hardware walk finds for `va`, ZERO when there is none. */
    method Walk(id: nat, va: nat) returns (w: Word)
      requires Valid() && id in roots
      ensures w == L(Now(pa, t), id, va)
    {
      hide Forest, Separated, IsFreeList, UserLeaves, OneWriter, CowExact;
      DeepCopy.SoundAgain(pa, t);
      var l3 := FindLeaf(pa, roots[id], va, id, t);
      if l3.None? {
        NoLeaf(Now(pa, t), id, va);
        return ZERO;
      }
      return pa.mem[l3.value][Index3(va)];
    }

    /** A frame off the list, filled with `page` and mapped at `va` with PAGE_FLAGS_USER_DATA.  `mapped` is
        the result of `map`, which the handler throws away. */
    method Install(id: nat, va: nat, page: Page) returns (handled: bool, mapped: bool)
      requires Valid() && id in roots && PageVa(va)
      modifies this`t, pa
      ensures handled <==> old(pa.free) != []
      ensures mapped <==> |old(pa.free)| > Missing(old(pa.mem), roots[id], va)
      ensures mapped ==>
                && pa.Valid() && handled && RootsAre(Now(pa, t), roots)
                && NewPage(old(Now(pa, t)), Now(pa, t), id, va, USER_DATA.(frame := old(pa.free)[0]))
                && old(pa.free)[0] in pa.mem && pa.mem[old(pa.free)[0]] == page
      ensures !handled ==> Now(pa, t) == old(Now(pa, t)) && pa.Valid()
      ensures handled && !mapped && |old(pa.free)| == 1 ==> pa.Valid() && Now(pa, t) == Taken(old(Now(pa, t)), page)
      ensures handled && !mapped && |old(pa.free)| != 1 ==> pa.Valid() && pa.head.Some? && Ruined(pa, roots[id])
    {
      hide Good, Forest, Separated, IsFreeList, UserLeaves, OneWriter, CowExact, Missing, Remaps, PagesKept, Grown,
        AddedIn, NotATable, RootsAre, Dangling, NewPage, SameSlots, Distinct, PageVa, Taken, Ruined;
      ghost var s := Now(pa, t);
      RootOf(s, roots, id);
      var g := pa.Alloc();
      if g.None? {
        return false, false;
      }
      TakenGood(s, page);
      MissingSame(s, page, id, va);
      pa.Fill(g.value, page);
      TakenIs(s, page);
      DeepCopy.SoundAgain(pa, t);
      ghost var t';
      mapped, t' := MapPage(pa, roots[id], va, g.value, USER_DATA, id, t);
      if mapped {
        t := t';
        DeepCopy.FreeListFacts(pa, t);
        TakenMapped(s, Now(pa, t), id, va, page, USER_DATA.(frame := g.value));
        RootsGrow(s, Now(pa, t), roots, id, s.free[1..]);
        NewPageWord(s, Now(pa, t), id, va, USER_DATA.(frame := g.value));
      } else if s.free[1..] != [] {
        ghost var d :| 1 <= d <= 2 && Dangling(pa.mem, pa.free, roots[id], PathAt(d, id, va));
        WalkRuins(pa, roots[id], PathAt(d, id, va));
        HeadOf(pa);
      }
      return true, mapped;
    }

    /** `handle_page_fault`: a translation fault in a demand region brings in a zero page, a write to
        a page of `cow_pages` makes it private, and everything else is refused, as is a fault when no frame
        is left.  A fault is called handled even when the page could not be mapped: with one frame that
        frame is lost and the access faults again; with more, but no more than the missing tables, the
        tables are left broken, and no reading of them is sound. */
    method PageFault(id: nat, va: nat, translation: bool, write: bool) returns (handled: bool, mapped: bool)
      requires Valid() && id in roots && PageVa(va)
      requires translation <==> !L(Now(pa, t), id, va).valid
      modifies this`t, this`cow, pa
      ensures handled <==>
                && old(pa.free) != []
                && if translation then InDemand(regions[id], va) else write && old(L(Now(pa, t), id, va)).cow
      ensures !handled ==> !mapped && Valid() && Snap() == old(Snap())
      ensures handled ==> (mapped <==> !translation || |old(pa.free)| > Missing(old(pa.mem), roots[id], va))
      ensures mapped ==> Valid() && Writes(Now(pa, t), id, va)
      ensures mapped && translation ==>
                && Touch(old(World())[id], va).Some?
                && World() == old(World())[id := Touch(old(World())[id], va).value]
      ensures mapped && !translation ==> World() == old(World())
      ensures handled && !mapped ==> (Valid() <==> |old(pa.free)| == 1) && (pa.head.None? <==> |old(pa.free)| == 1)
      ensures handled && !mapped && !Valid() ==> Ruined(pa, roots[id])
      ensures handled && !mapped && Valid() ==>
                World() == old(World()) && pa.free == [] && !L(Now(pa, t), id, va).valid
    {
      hide Forest, Separated, IsFreeList, UserLeaves, OneWriter, CowExact, Missing, NewPage, RootsAre, L, Pages,
        NotATable, Distinct, Good, WorldOf, SameLookups, Ruined;
      ghost var s := Now(pa, t);
      InView(s, roots, cow, id, va);
      if translation {
        if !InDemand(regions[id], va) {
          return false, false;
        }
        handled, mapped := Install(id, va, ZeroPage());
        if mapped {
          ghost var w := USER_DATA.(frame := s.free[0]);
          NewPageInv(s, Now(pa, t), roots, cow, id, va, w);
          NotThere(cow, id, va);
          WorldDemand(s, Now(pa, t), roots, cow, regions, id, va, w);
          NewPageLookup(s, Now(pa, t), id, va, w, id, va);
        } else if handled && |s.free| == 1 {
          LostFrame(s, ZeroPage(), roots, cow, regions);
          SameAt(s, Now(pa, t), id, va);
          NoHead(pa);
        } else if handled {
          NoForest(pa, t, roots, cow, id);
        }
        return;
      }
      if !write || va !in cow[id] {
        return false, false;
      }
      NothingMissingAt(s, roots, cow, id, va);
      handled, mapped := Install(id, va, pa.mem[cow[id][va]]);
      if !handled {
        return;
      }
      ghost var w := USER_DATA.(frame := s.free[0]);
      NewPageInv(s, Now(pa, t), roots, cow, id, va, w);
      WorldCow(s, Now(pa, t), roots, cow, regions, id, va, w);
      NewPageLookup(s, Now(pa, t), id, va, w, id, va);
      cow := cow[id := cow[id] - {va}];
    }

    /** `PageTable::new` for a fresh process. */
    method SpawnSpace(id: nat, mmap: seq<Region>) returns (ok: bool)
      requires Valid() && id !in roots
      modifies this, pa
      ensures ok <==> old(pa.free) != []
      ensures ok ==> Valid() && World() == old(World())[id := Process(map[], mmap)]
      ensures ok ==> id in roots && roots[id] in pa.mem && pa.mem[roots[id]] == ZeroPage()
      ensures ok ==> pa.free == old(pa.free)[1..]
      ensures !ok ==> Valid() && Snap() == old(Snap())
    {
      hide Good, Forest, Separated, IsFreeList, UserLeaves, OneWriter, CowExact, RootsAre, NewSpace, Pages, RootAdded,
        WorldOf;
      ghost var s := Now(pa, t);
      var r := pa.CreateTable();
      if r.None? {
        return false;
      }
      RootAddedIs(s, id);
      SpawnedInv(s, roots, cow, id);
      WorldSpawned(s, roots, cow, regions, id, mmap);
      t := t[Root(id) := r.value];
      roots, cow, regions := roots[id := r.value], cow[id := map[]], regions[id := mmap];
      return true;
    }

    /** `collect_cow_pages` with the callback that inserts into a `cow_pages` map. */
    method CollectInto(root: Frame, acc: map<nat, Frame>, ghost id: nat, ghost s: State) returns (r: map<nat, Frame>)
      requires pa.mem == s.m && Good(s) && Root(id) in s.t && s.t[Root(id)] == root
      ensures CollectedInto(s, id, r, acc)
    {
      hide Good, Marked, Lookup, CollectedInto;
      r := CollectCowPages(pa, root, acc, id, s);
      CollectedIs(s, id, r, acc);
    }

    /** The memory part of `fork`: the child gets the parent's tables, both lose write permission on
        the shared pages, and both `cow_pages` maps are rebuilt from the tables.  When `cow_copy_user` fails
        the maps are not rebuilt, and all is well exactly if it had not met a page yet. */
    method ForkSpace(parent: nat, child: nat) returns (ok: bool, broken: bool)
      requires Valid() && parent in roots && child !in roots
      modifies this, pa
      ensures ok <==> ForkFits(|old(pa.free)|, old(|UserTables(Now(pa, t), parent)|))
      ensures ok ==> Valid() && World() == EagerFork(old(World()), parent, child)
      ensures !ok ==> (Valid() <==> |old(pa.free)| < 1 + old(Lead(pa.mem, t, Root(parent), 256)))
      ensures !ok ==> (broken <==> !Valid())
      ensures !ok && Valid() ==> World() == old(World()) && roots == old(roots)
      ensures !ok && !Valid() ==> roots == old(roots) && Ruined(pa, roots[parent])
    {
      hide Good, Forest, Separated, IsFreeList, UserLeaves, OneWriter, CowExact, RootsAre, Copying, NewSpace, Forked,
        CollectedInto, Pages, Distinct, Marked, Lookup, WorldOf, MapsFree, Lead, UserTables, Backed,
        DeepCopy.SameOutside, Elements, ForkedWord, EagerFork, Ruined;
      ghost var s := Now(pa, t);
      RootOf(s, roots, parent);
      Unused(s, roots, child);
      UserBacked(s, parent);
      DeepCopy.SoundAgain(pa, t);
      var r;
      ghost var t';
      r, broken, t' := CowCopyUser(pa, roots[parent], parent, child, t);
      if r.None? {
        ForkFailed(pa, t, s, roots, cow, regions);
        if broken { PageRuins(pa, roots[parent]); }
        return false, broken;
      }
      ghost var s' := Now(pa, t');
      ForkedGood(s, s', parent, child);
      RootsForked(s, s', roots, child, r.value);
      RootOf(s', roots[child := r.value], parent);
      var parentCow := CollectInto(roots[parent], cow[parent], parent, s');
      var childCow := CollectInto(r.value, map[], child, s');
      ForkInv(s, s', roots, cow, parent, child, r.value, parentCow, childCow);
      WorldForked(s, s', roots, regions, parent, child, r.value);
      t := t';
      roots, cow := roots[child := r.value], cow[parent := parentCow][child := childCow];
      regions := regions[child := regions[parent]];
      return true, false;
    }

    /** A user load.  A load that faults in vain is a SIGSEGV; None: the tables broke. */
    method ReadWord(id: nat, va: nat, i: nat) returns (r: Option<Outcome>)
      requires Valid() && id in roots && PageVa(va) && i < WORDS
      modifies this`t, this`cow, pa
      ensures r.None? <==> Breaks(old(Snap()), Read(id, va, i))
      ensures Valid() <==> r.Some?
      ensures r.None? ==> Ruined(pa, roots[id])
      ensures r.Some? ==>
                (World(), r.value) == if Starves(old(Snap()), Read(id, va, i)) then (old(World()), Fault)
                                      else EagerRead(old(World()), id, va, i)
    {
      hide Good, Forest, Separated, IsFreeList, UserLeaves, OneWriter, CowExact, RootsAre, Pages, L, Missing, InDemand,
        NotATable, WorldOf, Ruined;
      ghost var w0 := World();
      InView(Now(pa, t), roots, cow, id, va);
      WorldHas(Now(pa, t), roots, regions, id);
      MissingBound(pa.mem, roots[id], va);
      var leaf := Walk(id, va);
      if !leaf.valid {
        var handled, mapped := PageFault(id, va, true, false);
        if !handled {
          return Some(Fault);
        }
        if !mapped {
          if pa.head.Some? {
            return None;
          }
          handled, mapped := PageFault(id, va, true, false);
          return Some(Fault);
        }
        TouchedFirst(w0, id, va, i, ZERO);
        leaf := Walk(id, va);
        InView(Now(pa, t), roots, cow, id, va);
        WorldHas(Now(pa, t), roots, regions, id);
      }
      ghost var w1 := World();
      assert w1[id := w1[id]] == w1;
      return Some(Value(pa.mem[leaf.frame][i]));
    }

    /** A user store, in the same way. */
    method WriteWord(id: nat, va: nat, i: nat, x: Word) returns (r: Option<Outcome>)
      requires Valid() && id in roots && PageVa(va) && i < WORDS
      modifies this`t, this`cow, pa
      ensures r.None? <==> Breaks(old(Snap()), Write(id, va, i, x))
      ensures Valid() <==> r.Some?
      ensures r.None? ==> Ruined(pa, roots[id])
      ensures r.Some? ==>
                (World(), r.value) == if Starves(old(Snap()), Write(id, va, i, x)) then (old(World()), Fault)
                                      else EagerWrite(old(World()), id, va, i, x)
    {
      hide Good, Forest, Separated, IsFreeList, UserLeaves, OneWriter, CowExact, RootsAre, Pages, L, Missing, InDemand,
        NotATable, WorldOf, Ruined;
      ghost var w0 := World();
      InView(Now(pa, t), roots, cow, id, va);
      WorldHas(Now(pa, t), roots, regions, id);
      MissingBound(pa.mem, roots[id], va);
      var leaf := Walk(id, va);
      if !leaf.valid || leaf.ap != USER_READWRITE {
        var handled, mapped := PageFault(id, va, !leaf.valid, true);
        if !handled {
          return Some(Fault);
        }
        if !mapped {
          if pa.head.Some? {
            return None;
          }
          handled, mapped := PageFault(id, va, true, true);
          return Some(Fault);
        }
        if !leaf.valid {
          TouchedFirst(w0, id, va, i, x);
        }
        leaf := Walk(id, va);
        InView(Now(pa, t), roots, cow, id, va);
        WorldHas(Now(pa, t), roots, regions, id);
      }
      ghost var s := Now(pa, t);
      WorldWrite(s, Poked(s, leaf.frame, i, x), roots, cow, regions, id, va, i, x);
      pa.Store(leaf.frame, i, x);
      return Some(Done);
    }

    /** One operation.  None: the tables broke, as the free frames said beforehand. */
    method Step(op: Op) returns (r: Option<Outcome>)
      requires Valid() && WellFormed(op)
      modifies this, pa
      ensures r.None? <==> Breaks(old(Snap()), op)
      ensures Valid() <==> r.Some?
      ensures r.Some? ==> Answers(old(Snap()), op, r.value, Snap())
      ensures r.None? ==> op.id in roots && Ruined(pa, roots[op.id])
    {
      hide Inv, PageVa, WorldOf, Lead, UserTables, Missing, L, InDemand, EagerRead, EagerWrite, EagerFork, IsFreeList,
        Ruined;
      InReference(Now(pa, t), roots, regions);
      match op
      case Spawn(id, regions) =>
        if id !in roots {
          var ok := SpawnSpace(id, regions);
          r := Some(if ok then Done else Fault);
        } else {
          r := Some(Fault);
        }
      case Read(id, va, i) =>
        if id in roots {
          r := ReadWord(id, va, i);
        } else {
          r := Some(Fault);
        }
      case Write(id, va, i, x) =>
        if id in roots {
          r := WriteWord(id, va, i, x);
        } else {
          r := Some(Fault);
        }
      case Fork(id, child) =>
        if id in roots && child !in roots {
          ForkNeeds(Now(pa, t), roots, cow, id);
          var ok, broken := ForkSpace(id, child);
          r := if ok then Some(Done) else if broken then None else Some(Fault);
        } else {
          r := Some(Fault);
        }
    }

    /** Any run of spawns, forks, loads and stores shows what the reference world shows, but for operations
        the free frames refuse.  It ends early only where the tables break, at an operation whose free frames
        told so, and then no reading of the tables is sound. */
    method Run(ops: seq<Op>) returns (obs: seq<Outcome>, ghost snaps: seq<Snapshot>)
      requires Valid() && forall k :: 0 <= k < |ops| ==> WellFormed(ops[k])
      modifies this, pa
      ensures |obs| <= |ops| && Explained(snaps, ops[..|obs|], obs) && snaps[0] == old(Snap())
      ensures |obs| == |ops| <==> Valid()
      ensures |obs| == |ops| ==> Snap() == snaps[|obs|]
      ensures |obs| < |ops| ==>
                && Breaks(snaps[|obs|], ops[|obs|])
                && ops[|obs|].id in roots && Ruined(pa, roots[ops[|obs|].id])
    {
      hide Inv, WorldOf, IsFreeList, Answers, Breaks, Starves, Ruined;
      obs, snaps := [], [Snap()];
      for k := 0 to |ops|
        invariant Valid() && |obs| == k && Explained(snaps, ops[..k], obs)
        invariant snaps[0] == old(Snap()) && snaps[k] == Snap()
      {
        ghost var before := snaps;
        var r := Step(ops[k]);
        if r.None? {
          return;
        }
        obs, snaps := obs + [r.value], snaps + [Snap()];
        assert forall j :: 0 <= j <= k ==> snaps[j] == before[j];
      }
      assert ops[..|ops|] == ops;
    }
  }

  lemma InReference(s: State, roots: map<nat, Frame>, regions: map<nat, seq<Region>>)
    requires roots.Keys == regions.Keys
    ensures forall id :: id in WorldOf(s, roots, regions) <==> id in roots
  {
  }

  lemma WorldHas(s: State, roots: map<nat, Frame>, regions: map<nat, seq<Region>>, id: nat)
    requires roots.Keys == regions.Keys && id in roots
    ensures id in WorldOf(s, roots, regions) && WorldOf(s, roots, regions)[id] == Process(Pages(s, id), regions[id])
  {
  }

  /** A fork too short for the way to the first page is too short for all tables. */
  lemma ForkNeeds(s: State, roots: map<nat, Frame>, cow: map<nat, map<nat, Frame>>, id: nat)
    requires Inv(s, roots, cow) && id in roots
    ensures Lead(s.m, s.t, Root(id), 256) <= |UserTables(s, id)|
  {
    UserCost(s, id);
    LeadIsCost(s.m, s.t, Root(id), 256);
  }

  lemma SameAt(s: State, s': State, id: nat, va: nat)
    requires SameLookups(s, s')
    ensures L(s', id, va) == L(s, id, va)
  {
  }

  lemma HeadOf(pa: PhysicalAllocator)
    requires pa.Valid() && pa.free != []
    ensures pa.head.Some?
  {
  }

  lemma NoHead(pa: PhysicalAllocator)
    requires pa.Valid() && pa.free == []
    ensures pa.head.None?
  {
  }

  lemma Unused(s: State, roots: map<nat, Frame>, c: nat)
    requires RootsAre(s, roots) && c !in roots
    ensures NewSpace(s.t, c)
  {
  }

  lemma RootsForked(s: State, s': State, roots: map<nat, Frame>, c: nat, root: Frame)
    requires RootsAre(s, roots) && c !in roots && Copying(Lazy, s, s', c) && Root(c) in s'.t && s'.t[Root(c)] == root
    ensures RootsAre(s', roots[c := root])
  {
    hide Good, PagesKept;
    assert forall id :: Owner(Root(id)) == id;
  }

  lemma CollectedIs(s: State, id: nat, r: map<nat, Frame>, acc: map<nat, Frame>)
    requires forall va :: va in r <==> va in acc || Marked(s, id, va)
    requires forall va :: va in r ==> r[va] == if Marked(s, id, va) then Lookup(s.m, s.t, id, va).frame else acc[va]
    ensures CollectedInto(s, id, r, acc)
  {
    hide Marked, Lookup;
  }

  lemma NotThere(cow: map<nat, map<nat, Frame>>, id: nat, va: nat)
    requires id in cow && va !in cow[id]
    ensures cow[id := cow[id] - {va}] == cow
  {
    assert cow[id] - {va} == cow[id];
  }

  lemma TakenIs(s: State, page: Page)
    requires s.free != []
    ensures Taken(s, page) == State(s.m[s.free[0] := page], s.t, s.free[1..])
  {
  }

  lemma NoLeaf(s: State, id: nat, va: nat)
    requires !L(s, id, va).valid
    ensures L(s, id, va) == ZERO
  {
  }

  lemma RootOf(s: State, roots: map<nat, Frame>, id: nat)
    requires RootsAre(s, roots) && id in roots
    ensures Root(id) in s.t && s.t[Root(id)] == roots[id]
  {
  }

  lemma NothingMissingAt(s: State, roots: map<nat, Frame>, cow: map<nat, map<nat, Frame>>, id: nat, va: nat)
    requires Inv(s, roots, cow) && id in roots && L(s, id, va).valid
    ensures Missing(s.m, roots[id], va) == 0
  {
    NothingMissing(s, id, va);
  }
}
