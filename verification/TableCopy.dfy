/** `deep_copy_user` and `cow_copy_user`: rebuilding one address space under another root.

  Both kernel functions run the same four nested loops over the parent's tables and differ only in
  what they store at a leaf, so the loops are written once, one level per call, with the leaf rule
  as a parameter.
 */
module TableCopy {
  import opened PhysicalMemory
  import opened PageTables
  import opened Mapping
  import opened TableCount

  // ---------------------------------------------------------------------------
  // Subtrees
  // ---------------------------------------------------------------------------

  ghost predicate Under(p: Path, q: Path) {
    q == p || (q.Sub? && Under(p, q.up))
  }

  /** The entry of `p` through which the path `q` below it passes. */
  function Branch(p: Path, q: Path): nat {
    if q.Sub? then if q.up == p then q.index else Branch(p, q.up) else 0
  }

  /** The path with the same indices in address space `c`. */
  function Rebase(p: Path, c: nat): Path {
    match p
    case Root(_) => Root(c)
    case Sub(u, i) => Sub(Rebase(u, c), i)
  }

  lemma {:induction false} UnderFacts(p: Path, q: Path)
    requires Under(p, q)
    ensures Owner(q) == Owner(p) && Depth(p) <= Depth(q)
    ensures Depth(p) == Depth(q) ==> p == q
    ensures q != p ==> Depth(p) < Depth(q) && Under(Sub(p, Branch(p, q)), q)
  {
    if q != p {
      UnderFacts(p, q.up);
    }
  }

  lemma {:induction false} UnderEntry(p: Path, i: nat, q: Path)
    requires Under(Sub(p, i), q)
    ensures Under(p, q) && q != p && Branch(p, q) == i
  {
    UnderFacts(Sub(p, i), q);
    if q != Sub(p, i) {
      UnderEntry(p, i, q.up);
      UnderFacts(p, q.up);
    }
  }

  lemma {:induction false} RebaseFacts(p: Path, c: nat)
    ensures Depth(Rebase(p, c)) == Depth(p) && Owner(Rebase(p, c)) == c
  {
    if p.Sub? {
      RebaseFacts(p.up, c);
    }
  }

  lemma {:induction false} RebaseInjective(p: Path, q: Path, c: nat)
    requires Owner(p) == Owner(q) && Rebase(p, c) == Rebase(q, c)
    ensures p == q
  {
    if p.Sub? && q.Sub? {
      RebaseInjective(p.up, q.up, c);
    }
  }

  lemma {:induction false} RebaseUnder(p: Path, q: Path, c: nat)
    requires Owner(p) == Owner(q)
    ensures Under(p, q) <==> Under(Rebase(p, c), Rebase(q, c))
  {
    if q.Sub? {
      RebaseUnder(p, q.up, c);
    }
    if Rebase(q, c) == Rebase(p, c) {
      RebaseInjective(p, q, c);
    }
  }

  lemma {:induction false} MissingAbove(t: Tables, p: Path, q: Path)
    requires Closed(t) && p !in t && Under(p, q)
    ensures q !in t
  {
    if q != p {
      MissingAbove(t, p, q.up);
      assert q == Sub(q.up, q.index);
    }
  }

  // ---------------------------------------------------------------------------
  // What has been copied so far
  // ---------------------------------------------------------------------------

  datatype Mode = Eager | Lazy

  /** Memory, the forest over it, and the free list. */
  datatype State = State(m: Memory, t: Tables, free: seq<Frame>)

  ghost function Now(pa: PhysicalAllocator, t: Tables): State
    reads pa
  {
    State(pa.mem, t, pa.free)
  }

  ghost predicate Good(s: State) {
    && Forest(s.m, s.t) && Separated(s.m, s.t, s.free)
    && Distinct(s.free) && forall k :: 0 <= k < |s.free| ==> s.free[k] in s.m
  }

  function SlotOf(s: State, p: Path, i: nat): Word {
    Slot(s.m, s.t, p, i)
  }

  const USER_READWRITE: nat := 1
  const USER_READONLY: nat := 3

  /** The leaf that `cow_copy_user` stores in parent and child for the parent's leaf `w`. */
  function Cow(w: Word): Word {
    if w.ap == USER_READWRITE then w.(ap := USER_READONLY, cow := true) else w
  }

  /** What both copies hold for a parent leaf that was `w` in `s0`. */
  ghost predicate CopyOf(mode: Mode, s0: State, w: Word, s: State, parent: Word, child: Word) {
    if !w.valid then parent == w && child == ZERO
    else match mode
      case Eager =>
        && parent == w && child == w.(frame := child.frame)
        && w.frame in s0.m && child.frame in s.m && s.m[child.frame] == s0.m[w.frame]
      case Lazy => parent == Cow(w) && child == Cow(w)
  }

  ghost predicate SlotCopied(mode: Mode, s0: State, s: State, c: nat, q: Path, j: nat) {
    CopyOf(mode, s0, SlotOf(s0, q, j), s, SlotOf(s, q, j), SlotOf(s, Rebase(q, c), j))
  }

  ghost predicate SlotPending(s0: State, s: State, c: nat, q: Path, j: nat) {
    SlotOf(s, q, j) == SlotOf(s0, q, j) && SlotOf(s, Rebase(q, c), j) == ZERO
  }

  /** The loop over the entries of `p` has passed slot `j` of the level-3 table `q` at count `n`. */
  function Passed(p: Path, q: Path, j: nat, n: nat): bool {
    if Depth(p) == 3 then j < n else Branch(p, q) < n
  }

  /** Below `p`, the slots passed at count `n` are copied and the others still pending. */
  ghost predicate Copied(mode: Mode, s0: State, s: State, p: Path, c: nat, n: nat) {
    forall q, j: nat :: Depth(q) == 3 && Under(p, q) ==>
      if Passed(p, q, j, n) then SlotCopied(mode, s0, s, c, q, j) else SlotPending(s0, s, c, q, j)
  }

  ghost predicate CopiedAll(mode: Mode, s0: State, s: State, p: Path, c: nat) {
    forall q, j: nat :: Depth(q) == 3 && Under(p, q) ==> SlotCopied(mode, s0, s, c, q, j)
  }

  ghost predicate HasTable(s: State, c: nat, f: Frame) {
    exists q :: q in s.t && Owner(q) == c && s.t[q] == f
  }

  ghost predicate IsLeaf(s: State, c: nat, q: Path, j: nat) {
    Depth(q) == 3 && Owner(q) == c && SlotOf(s, q, j).valid
  }

  ghost predicate HasLeaf(s: State, c: nat, f: Frame) {
    exists q, j: nat :: IsLeaf(s, c, q, j) && SlotOf(s, q, j).frame == f
  }

  /** Space `c` maps each of its pages to its own frame, all of them taken from `free`. */
  ghost predicate FreshLeaves(s: State, c: nat, free: seq<Frame>) {
    && (forall q, j: nat :: IsLeaf(s, c, q, j) ==> SlotOf(s, q, j).frame in free)
    && (forall q, j: nat, q', j': nat :: IsLeaf(s, c, q, j) && IsLeaf(s, c, q', j') ==>
          SlotOf(s, q, j).frame == SlotOf(s, q', j').frame ==> q == q' && j == j')
  }

  /** Space `c` is being built from frames of `s0.free`; everything else is as in `s0`. */
  ghost predicate Building(s0: State, s: State, c: nat) {
    && Good(s0) && Good(s)
    && (forall q :: q in s0.t <==> q in s.t && Owner(q) != c)
    && (forall q :: q in s0.t ==> s.t[q] == s0.t[q])
    && (forall q :: q in s.t && Owner(q) == c ==> s.t[q] in s0.free)
    && PagesKept(s0.m, s0.t, s0.free, s.m)
    && (forall f :: f in s.free ==> f in s0.free)
  }

  /** Every frame taken off the list is a table or a page of space `c`. */
  ghost predicate Accounted(s0: State, s: State, c: nat) {
    forall f :: f in s0.free ==> f in s.free || HasTable(s, c, f) || HasLeaf(s, c, f)
  }

  /** The tables of `s0` hold what they held. */
  ghost predicate Untouched(s0: State, s: State) {
    forall q :: q in s0.t ==> s0.t[q] in s0.m && s0.t[q] in s.m && s.m[s0.t[q]] == s0.m[s0.t[q]]
  }

  ghost predicate Copying(mode: Mode, s0: State, s: State, c: nat) {
    && Building(s0, s, c)
    && (mode.Eager? ==> FreshLeaves(s, c, s0.free) && Accounted(s0, s, c) && Untouched(s0, s))
  }

  /** One step changes only free frames and tables at or below `p` and `d`, and adds tables below `d`. */
  ghost predicate Framed(s: State, s': State, p: Path, d: Path) {
    && PagesKept(s.m, s.t, s.free, s'.m)
    && (forall q :: q in s.t ==> q in s'.t && s'.t[q] == s.t[q])
    && (forall q :: q in s'.t && q !in s.t ==> Under(d, q) && s'.t[q] in s.free)
    && (forall q :: q in s.t && !Under(p, q) && !Under(d, q) ==> s.t[q] in s'.m && s'.m[s.t[q]] == s.m[s.t[q]])
    && (forall f :: f in s'.free ==> f in s.free)
  }

  lemma FramedRefl(s: State, p: Path, d: Path)
    requires Good(s)
    ensures Framed(s, s, p, d)
  {
  }

  lemma FramedTrans(s: State, s1: State, s2: State, p: Path, d: Path, p1: Path, d1: Path)
    requires Good(s) && Framed(s, s1, p, d) && Framed(s1, s2, p1, d1)
    requires forall q :: Under(p1, q) ==> Under(p, q)
    requires forall q :: Under(d1, q) ==> Under(d, q)
    ensures Framed(s, s2, p, d)
  {
    forall q | q in s.t && !Under(p, q) && !Under(d, q)
      ensures s.t[q] in s2.m && s2.m[s.t[q]] == s.m[s.t[q]]
    {
      assert s1.t[q] == s.t[q] && !Under(p1, q) && !Under(d1, q);
    }
  }

  /** Slots outside both subtrees keep their contents across a framed step. */
  lemma FramedSlots(s: State, s': State, p: Path, d: Path, q: Path, j: nat)
    requires Good(s) && Framed(s, s', p, d) && !Under(p, q) && !Under(d, q)
    ensures SlotOf(s', q, j) == SlotOf(s, q, j)
  {
  }

  lemma NoFarEntry(s: State, p: Path, i: nat)
    requires Good(s) && Sub(p, i) in s.t
    ensures i < WORDS
  {
  }

  lemma {:induction false} UnderIsIn(s: State, p: Path, q: Path)
    requires Good(s) && Under(p, q) && q in s.t
    ensures p in s.t
  {
    if p !in s.t {
      assert Closed(s.t);
      MissingAbove(s.t, p, q);
    }
  }

  // ---------------------------------------------------------------------------
  // The steps of the copy
  // ---------------------------------------------------------------------------

  /** A step that keeps pages, all of `s0`'s tables in place and the list shrinking stays a build. */
  lemma BuildingStep(s0: State, s: State, s': State, c: nat)
    requires Building(s0, s, c) && Good(s')
    requires PagesKept(s.m, s.t, s.free, s'.m)
    requires forall q :: q in s.t ==> q in s'.t && s'.t[q] == s.t[q]
    requires forall q :: q in s'.t && q !in s.t ==> Owner(q) == c && s'.t[q] in s.free
    requires forall f :: f in s'.free ==> f in s.free
    ensures Building(s0, s', c)
  {
    hide Forest, Separated;
  }

  ghost predicate LinkStep(s: State, d: Path, i: nat, s': State) {
    && d in s.t && s.t[d] in s.m && Depth(d) < 3 && i < WORDS && s.free != []
    && !s.m[s.t[d]][i].valid
    && s'.m == s.m[s.free[0] := ZeroPage()][s.t[d] := s.m[s.t[d]][i := TableWord(s.free[0])]]
    && s'.t == s.t[Sub(d, i) := s.free[0]] && s'.free == s.free[1..]
  }

  lemma LinkStepGood(s: State, d: Path, i: nat, s': State)
    requires Good(s) && LinkStep(s, d, i, s')
    ensures Good(s') && Sub(d, i) !in s.t
    ensures SameSlots(s.m, s.t, s'.m, s'.t) && PagesKept(s.m, s.t, s.free, s'.m)
  {
    LinkedTable(s.m, s.t, s.free, d, i, s'.m, s'.t);
    assert Linked(s.m, s.t, d, i);
    hide Forest, Separated, SameSlots, PagesKept, Grown;
    assert s'.free == s.free[1..];
  }

  lemma LinkStepTables(s: State, d: Path, i: nat, s': State)
    requires Good(s) && LinkStep(s, d, i, s')
    ensures s.free != [] && d in s.t && s'.t == s.t[Sub(d, i) := s.free[0]] && s'.free == s.free[1..]
    ensures s.free[0] in s'.m && s'.m[s.free[0]] == ZeroPage()
    ensures forall q :: q in s.t && q != d ==> s.t[q] in s'.m && s'.m[s.t[q]] == s.m[s.t[q]]
    ensures s.t[d] in s'.m && s.t[d] in s.m
    ensures forall j :: 0 <= j < WORDS && j != i ==> s'.m[s.t[d]][j] == s.m[s.t[d]][j]
  {
    assert forall q :: q in s.t ==> s.t[q] != s.free[0];
    assert forall q :: q in s.t && q != d ==> s.t[q] != s.t[d];
  }

  /** Linking a fresh table into the child. */
  lemma LinkChild(mode: Mode, s0: State, s: State, c: nat, d: Path, i: nat, s': State)
    requires Copying(mode, s0, s, c) && Owner(d) == c && LinkStep(s, d, i, s')
    ensures Copying(mode, s0, s', c)
    ensures SameSlots(s.m, s.t, s'.m, s'.t) && Framed(s, s', d, d)
  {
    hide Forest, Separated, SameSlots, PagesKept, FreshLeaves, Accounted, Untouched, Good, LinkStep;
    LinkStepGood(s, d, i, s');
    LinkStepTables(s, d, i, s');
    assert Owner(Sub(d, i)) == c && Under(d, Sub(d, i));
    BuildingStep(s0, s, s', c);
    if mode.Eager? {
      LinkChildAccounts(s0, s, c, Sub(d, i), s');
      StillUntouched(s0, s, s', c, d);
    }
  }

  /** A step framed inside the child does not touch the tables of `s0`. */
  lemma StillUntouched(s0: State, s: State, s': State, c: nat, d: Path)
    requires Building(s0, s, c) && Untouched(s0, s) && Framed(s, s', d, d) && Owner(d) == c
    ensures Untouched(s0, s')
  {
    hide Good, PagesKept;
    forall q | q in s0.t
      ensures s0.t[q] in s'.m && s'.m[s0.t[q]] == s0.m[s0.t[q]]
    {
      if Under(d, q) {
        UnderFacts(d, q);
      }
      assert q in s.t && s.t[q] == s0.t[q];
    }
  }

  lemma LinkChildAccounts(s0: State, s: State, c: nat, p: Path, s': State)
    requires FreshLeaves(s, c, s0.free) && Accounted(s0, s, c) && SameSlots(s.m, s.t, s'.m, s'.t)
    requires s.free != [] && Owner(p) == c && p !in s.t
    requires s'.t == s.t[p := s.free[0]] && s'.free == s.free[1..]
    ensures FreshLeaves(s', c, s0.free) && Accounted(s0, s', c)
  {
    assert forall q, j: nat :: Depth(q) == 3 ==> SlotOf(s', q, j) == SlotOf(s, q, j);
    forall f | f in s0.free
      ensures f in s'.free || HasTable(s', c, f) || HasLeaf(s', c, f)
    {
      if f == s.free[0] {
        assert p in s'.t && s'.t[p] == f;
      } else if HasTable(s, c, f) {
        var q :| q in s.t && Owner(q) == c && s.t[q] == f;
        assert q in s'.t && s'.t[q] == f;
      } else if HasLeaf(s, c, f) {
        var q, j: nat :| IsLeaf(s, c, q, j) && SlotOf(s, q, j).frame == f;
        assert IsLeaf(s', c, q, j) && SlotOf(s', q, j).frame == f;
      }
    }
  }

  /** A page taken off the list, filled, and mapped in slot `i` of the child's table `d`. */
  ghost predicate EagerStep(s: State, d: Path, i: nat, page: Page, v: Word, s': State) {
    && d in s.t && s.t[d] in s.m && Depth(d) == 3 && i < WORDS && s.free != []
    && !s.m[s.t[d]][i].valid && v.valid && v.frame == s.free[0] && s.t[d] != s.free[0]
    && s'.m == s.m[s.free[0] := page][s.t[d] := s.m[s.t[d]][i := v]]
    && s'.t == s.t && s'.free == s.free[1..]
  }

  /** Overwriting a frame that is no table leaves the forest and its leaves alone. */
  lemma FillFrame(m: Memory, t: Tables, free: seq<Frame>, f: Frame, page: Page, m': Memory)
    requires Forest(m, t) && Separated(m, t, free) && NotATable(t, f) && f in m && m' == m[f := page]
    ensures Forest(m', t) && Separated(m', t, free) && SameSlots(m, t, m', t)
    ensures forall q :: q in t ==> m'[t[q]] == m[t[q]]
  {
    assert forall q :: q in t ==> t[q] in m' && m'[t[q]] == m[t[q]];
    forall q, j: nat | q in t && Depth(q) < 3 && j < WORDS
      ensures Linked(m', t, q, j)
    {
      assert Linked(m, t, q, j);
    }
    forall q, j: nat | q in t && Depth(q) == 3 && j < WORDS
      ensures LeafClear(m', t, free, q, j)
    {
      assert LeafClear(m, t, free, q, j);
    }
  }

  lemma SeparatedFewer(m: Memory, t: Tables, free: seq<Frame>, free': seq<Frame>)
    requires Forest(m, t) && Separated(m, t, free) && forall f :: f in free' ==> f in free
    ensures Separated(m, t, free')
  {
    forall q, j: nat | q in t && Depth(q) == 3 && j < WORDS
      ensures LeafClear(m, t, free', q, j)
    {
      assert LeafClear(m, t, free, q, j);
    }
  }

  lemma EagerStepGood(s: State, d: Path, i: nat, page: Page, v: Word, s': State)
    requires Good(s) && EagerStep(s, d, i, page, v, s')
    ensures Good(s') && OneSlot(s.m, s.t, s'.m, s'.t, d, i, v)
    ensures s.free != [] && v.valid && v.frame == s.free[0] && s'.free == s.free[1..]
    ensures v.frame in s'.m && s'.m[v.frame] == page
  {
    var g := s.free[0];
    var m1 := s.m[g := page];
    assert NotATable(s.t, g);
    FillFrame(s.m, s.t, s.free, g, page, m1);
    SeparatedFewer(m1, s.t, s.free, s.free[1..]);
    hide Forest, Separated, LeafClear;
    SetLeaf(m1, s.t, s.free[1..], d, i, v, s'.m);
    OneSlotAfterSame(s.m, s.t, m1, s'.m, d, i, v);
  }

  lemma OneSlotAfterSame(m: Memory, t: Tables, m1: Memory, m2: Memory, p: Path, i: nat, w: Word)
    requires SameSlots(m, t, m1, t) && OneSlot(m1, t, m2, t, p, i, w)
    ensures OneSlot(m, t, m2, t, p, i, w)
  {
  }

  lemma TablesNotFree(s: State)
    requires Good(s)
    ensures forall q :: q in s.t ==> s.t[q] in s.m && s.t[q] !in s.free
    ensures forall p, q :: p in s.t && q in s.t && p != q ==> s.t[p] != s.t[q]
    ensures s.free != [] ==> s.free[0] in s.m
  {
  }

  lemma EagerStepFramed(s: State, d: Path, i: nat, page: Page, v: Word, s': State)
    requires Good(s) && EagerStep(s, d, i, page, v, s')
    ensures Framed(s, s', d, d)
    ensures s.t[d] in s'.m && forall j :: 0 <= j < WORDS && j != i ==> s'.m[s.t[d]][j] == s.m[s.t[d]][j]
  {
    hide Separated, Forest, Good;
    TablesNotFree(s);
    assert forall q :: q in s.t && q != d ==> s'.m[s.t[q]] == s.m[s.t[q]];
    assert s.free[0] in s.free;
  }

  lemma LeavesNotFree(s: State, c: nat)
    requires Good(s)
    ensures forall q, j: nat :: IsLeaf(s, c, q, j) ==> SlotOf(s, q, j).frame !in s.free
  {
    forall q, j: nat | IsLeaf(s, c, q, j)
      ensures SlotOf(s, q, j).frame !in s.free
    {
      assert LeafClear(s.m, s.t, s.free, q, j);
    }
  }

  lemma EagerAccounts(s0: State, s: State, c: nat, d: Path, i: nat, v: Word, s': State)
    requires FreshLeaves(s, c, s0.free) && Accounted(s0, s, c)
    requires forall q, j: nat :: IsLeaf(s, c, q, j) ==> SlotOf(s, q, j).frame !in s.free
    requires s.free != [] && v.valid && v.frame == s.free[0] && s'.t == s.t && s'.free == s.free[1..]
    requires Depth(d) == 3 && Owner(d) == c && !SlotOf(s, d, i).valid && s.free[0] in s0.free
    requires OneSlot(s.m, s.t, s'.m, s'.t, d, i, v)
    ensures FreshLeaves(s', c, s0.free) && Accounted(s0, s', c)
  {
    assert forall q, j: nat :: Depth(q) == 3 ==> SlotOf(s', q, j) == if q == d && j == i then v else SlotOf(s, q, j);
    hide Slot, SlotOf, OneSlot;
    assert s.free[0] in s.free;
    assert FreshLeaves(s', c, s0.free);
    assert IsLeaf(s', c, d, i) && SlotOf(s', d, i) == v;
    forall f | f in s0.free
      ensures f in s'.free || HasTable(s', c, f) || HasLeaf(s', c, f)
    {
      if HasTable(s, c, f) {
        var q :| q in s.t && Owner(q) == c && s.t[q] == f;
        assert q in s'.t && s'.t[q] == f;
      } else if HasLeaf(s, c, f) {
        var q, j: nat :| IsLeaf(s, c, q, j) && SlotOf(s, q, j).frame == f;
        assert IsLeaf(s', c, q, j) && SlotOf(s', q, j).frame == f;
      }
    }
  }

  /** Copying one page into the child. */
  lemma CopyPage(s0: State, s: State, c: nat, d: Path, i: nat, page: Page, v: Word, s': State)
    requires Copying(Eager, s0, s, c) && Owner(d) == c && EagerStep(s, d, i, page, v, s')
    ensures Copying(Eager, s0, s', c) && Framed(s, s', d, d)
    ensures OneSlot(s.m, s.t, s'.m, s'.t, d, i, v) && v.frame in s'.m && s'.m[v.frame] == page
  {
    hide Forest, Separated, OneSlot, PagesKept, FreshLeaves, Accounted, Untouched, Good;
    EagerStepGood(s, d, i, page, v, s');
    EagerStepFramed(s, d, i, page, v, s');
    BuildingStep(s0, s, s', c);
    LeavesNotFree(s, c);
    assert s.free[0] in s.free;
    EagerAccounts(s0, s, c, d, i, v, s');
    StillUntouched(s0, s, s', c, d);
  }

  // ---------------------------------------------------------------------------
  // The lazy leaf
  // ---------------------------------------------------------------------------

  /** Slot `i` of the parent's table `p` and of the child's table `d` both become `Cow` of the former. */
  ghost predicate LazyStep(s: State, p: Path, d: Path, i: nat, s': State) {
    && p in s.t && d in s.t && s.t[p] in s.m && s.t[d] in s.m && s.t[p] != s.t[d]
    && Depth(p) == 3 && Depth(d) == 3 && i < WORDS && s.m[s.t[p]][i].valid
    && s'.m == s.m[s.t[p] := s.m[s.t[p]][i := Cow(s.m[s.t[p]][i])]][s.t[d] := s.m[s.t[d]][i := Cow(s.m[s.t[p]][i])]]
    && s'.t == s.t && s'.free == s.free
  }

  lemma LazyStepGood(s: State, p: Path, d: Path, i: nat, s': State)
    requires Good(s) && LazyStep(s, p, d, i, s')
    ensures Good(s') && i < WORDS && SlotOf(s, p, i).valid
    ensures forall q, j: nat :: Depth(q) == 3 ==>
              SlotOf(s', q, j) == if (q == p || q == d) && j == i then Cow(SlotOf(s, p, i)) else SlotOf(s, q, j)
  {
    var w := Cow(s.m[s.t[p]][i]);
    var m1 := s.m[s.t[p] := s.m[s.t[p]][i := w]];
    assert LeafClear(s.m, s.t, s.free, p, i);
    hide Forest, Separated, LeafClear;
    SetLeaf(s.m, s.t, s.free, p, i, w, m1);
    SetLeaf(m1, s.t, s.free, d, i, w, s'.m);
    assert SlotOf(s, p, i) == s.m[s.t[p]][i];
    hide Slot;
    TwoSlots(s.m, s.t, m1, s'.m, p, d, i, w);
  }

  lemma TwoSlots(m: Memory, t: Tables, m1: Memory, m2: Memory, p: Path, d: Path, i: nat, w: Word)
    requires OneSlot(m, t, m1, t, p, i, w) && OneSlot(m1, t, m2, t, d, i, w)
    ensures forall q, j: nat :: Depth(q) == 3 ==>
              Slot(m2, t, q, j) == if (q == p || q == d) && j == i then w else Slot(m, t, q, j)
  {
  }

  lemma LazyStepFramed(s: State, p: Path, d: Path, i: nat, s': State)
    requires Good(s) && LazyStep(s, p, d, i, s')
    ensures Framed(s, s', p, d)
    ensures s.t[p] in s'.m && forall j :: 0 <= j < WORDS && j != i ==> s'.m[s.t[p]][j] == s.m[s.t[p]][j]
    ensures s.t[d] in s'.m && forall j :: 0 <= j < WORDS && j != i ==> s'.m[s.t[d]][j] == s.m[s.t[d]][j]
  {
    hide Separated, Forest, Good;
    TablesNotFree(s);
    assert forall q :: q in s.t && q != d && q != p ==> s'.m[s.t[q]] == s.m[s.t[q]];
  }

  /** Sharing one page with the child. */
  lemma SharePage(s0: State, s: State, c: nat, p: Path, d: Path, i: nat, s': State)
    requires Copying(Lazy, s0, s, c) && LazyStep(s, p, d, i, s')
    ensures Copying(Lazy, s0, s', c) && Framed(s, s', p, d)
  {
    hide Forest, Separated, PagesKept, Good;
    LazyStepGood(s, p, d, i, s');
    LazyStepFramed(s, p, d, i, s');
    BuildingStep(s0, s, s', c);
  }

  // ---------------------------------------------------------------------------
  // Progress of the loops
  // ---------------------------------------------------------------------------

  lemma SlotCopiedKept(mode: Mode, s0: State, s: State, s': State, c: nat, q: Path, j: nat)
    requires Good(s) && SlotCopied(mode, s0, s, c, q, j) && PagesKept(s.m, s.t, s.free, s'.m)
    requires Depth(q) == 3
    requires SlotOf(s', q, j) == SlotOf(s, q, j) && SlotOf(s', Rebase(q, c), j) == SlotOf(s, Rebase(q, c), j)
    ensures SlotCopied(mode, s0, s', c, q, j)
  {
    RebaseFacts(q, c);
    if SlotOf(s, Rebase(q, c), j).valid {
      assert LeafClear(s.m, s.t, s.free, Rebase(q, c), j);
    }
  }

  lemma CopiedLeafStep(mode: Mode, s0: State, s: State, s': State, p: Path, c: nat, i: nat)
    requires Good(s) && Depth(p) == 3 && Copied(mode, s0, s, p, c, i) && PagesKept(s.m, s.t, s.free, s'.m)
    requires forall j: nat :: j != i ==> SlotOf(s', p, j) == SlotOf(s, p, j)
    requires forall j: nat :: j != i ==> SlotOf(s', Rebase(p, c), j) == SlotOf(s, Rebase(p, c), j)
    requires SlotCopied(mode, s0, s', c, p, i)
    ensures Copied(mode, s0, s', p, c, i + 1)
  {
    hide Good, SlotOf, SlotCopied, PagesKept;
    forall q, j: nat | Depth(q) == 3 && Under(p, q)
      ensures if Passed(p, q, j, i + 1) then SlotCopied(mode, s0, s', c, q, j) else SlotPending(s0, s', c, q, j)
    {
      UnderFacts(p, q);
      if j < i {
        assert Passed(p, q, j, i);
        SlotCopiedKept(mode, s0, s, s', c, q, j);
      } else if j > i {
        assert !Passed(p, q, j, i);
        assert SlotPending(s0, s, c, q, j);
      }
    }
  }

  lemma CopiedEntryStep(mode: Mode, s0: State, s: State, s': State, p: Path, c: nat, i: nat)
    requires Good(s) && Depth(p) < 3 && Owner(p) != c && Copied(mode, s0, s, p, c, i)
    requires Framed(s, s', Sub(p, i), Sub(Rebase(p, c), i)) && CopiedAll(mode, s0, s', Sub(p, i), c)
    ensures Copied(mode, s0, s', p, c, i + 1)
  {
    forall q, j: nat | Depth(q) == 3 && Under(p, q)
      ensures if Passed(p, q, j, i + 1) then SlotCopied(mode, s0, s', c, q, j) else SlotPending(s0, s', c, q, j)
    {
      OtherEntry(s, s', p, c, i, q, j);
      if Branch(p, q) < i {
        assert Passed(p, q, j, i);
        SlotCopiedKept(mode, s0, s, s', c, q, j);
      } else if Branch(p, q) > i {
        assert !Passed(p, q, j, i);
        assert SlotPending(s0, s, c, q, j);
      }
    }
  }

  lemma OtherEntry(s: State, s': State, p: Path, c: nat, i: nat, q: Path, j: nat)
    requires Good(s) && Depth(p) < 3 && Owner(p) != c && Under(p, q) && Depth(q) == 3
    requires Framed(s, s', Sub(p, i), Sub(Rebase(p, c), i))
    ensures Branch(p, q) == i ==> Under(Sub(p, i), q)
    ensures Branch(p, q) != i ==>
              && SlotOf(s', q, j) == SlotOf(s, q, j)
              && SlotOf(s', Rebase(q, c), j) == SlotOf(s, Rebase(q, c), j)
  {
    hide Good, Framed, SlotOf;
    UnderFacts(p, q);
    if Branch(p, q) != i {
      assert Sub(Rebase(p, c), i) == Rebase(Sub(p, i), c);
      RebaseFacts(q, c);
      RebaseFacts(p, c);
      assert Owner(Sub(p, i)) == Owner(p) && Owner(Sub(Rebase(p, c), i)) == c;
      if Under(Sub(p, i), q) { UnderEntry(p, i, q); }
      if Under(Sub(Rebase(p, c), i), q) { UnderFacts(Sub(Rebase(p, c), i), q); }
      if Under(Sub(p, i), Rebase(q, c)) { UnderFacts(Sub(p, i), Rebase(q, c)); }
      RebaseUnder(Sub(p, i), q, c);
      FramedSlots(s, s', Sub(p, i), Sub(Rebase(p, c), i), q, j);
      FramedSlots(s, s', Sub(p, i), Sub(Rebase(p, c), i), Rebase(q, c), j);
    }
  }

  lemma EmptyBelow(s0: State, p: Path, q: Path, j: nat)
    requires Good(s0) && Depth(p) < 3 && Under(p, q) && Depth(q) == 3 && Sub(p, Branch(p, q)) !in s0.t
    ensures SlotOf(s0, q, j) == ZERO
  {
    UnderFacts(p, q);
    MissingAbove(s0.t, Sub(p, Branch(p, q)), q);
  }

  /** Where the parent maps nothing, a pending slot is already copied. */
  lemma PendingEmpty(mode: Mode, s0: State, s: State, c: nat, q: Path, j: nat)
    requires SlotPending(s0, s, c, q, j) && SlotOf(s0, q, j) == ZERO
    ensures SlotCopied(mode, s0, s, c, q, j)
  {
  }

  /** An entry that is not valid has nothing below it to copy. */
  lemma CopiedSkip(mode: Mode, s0: State, s: State, p: Path, c: nat, i: nat)
    requires Good(s0) && Copied(mode, s0, s, p, c, i) && Depth(p) <= 3
    requires if Depth(p) == 3 then SlotOf(s0, p, i) == ZERO else Sub(p, i) !in s0.t
    ensures Copied(mode, s0, s, p, c, i + 1)
  {
    hide Good, SlotOf, SlotCopied, SlotPending;
    forall q, j: nat | Depth(q) == 3 && Under(p, q)
      ensures if Passed(p, q, j, i + 1) then SlotCopied(mode, s0, s, c, q, j) else SlotPending(s0, s, c, q, j)
    {
      if Passed(p, q, j, i + 1) && !Passed(p, q, j, i) {
        assert SlotPending(s0, s, c, q, j);
        if Depth(p) < 3 {
          EmptyBelow(s0, p, q, j);
        } else {
          UnderFacts(p, q);
        }
        PendingEmpty(mode, s0, s, c, q, j);
      }
    }
  }

  lemma NoFarEntries(s0: State, p: Path, i: nat)
    requires Good(s0) && i >= WORDS
    ensures Sub(p, i) !in s0.t && SlotOf(s0, p, i) == ZERO
  {
  }

  /** After all 512 entries nothing below `p` is pending. */
  lemma CopiedFull(mode: Mode, s0: State, s: State, p: Path, c: nat)
    requires Good(s0) && Depth(p) <= 3 && Copied(mode, s0, s, p, c, WORDS)
    ensures CopiedAll(mode, s0, s, p, c)
  {
    hide Good, SlotOf, SlotCopied, SlotPending;
    forall q, j: nat | Depth(q) == 3 && Under(p, q)
      ensures SlotCopied(mode, s0, s, c, q, j)
    {
      if !Passed(p, q, j, WORDS) {
        assert SlotPending(s0, s, c, q, j);
        if Depth(p) < 3 {
          NoFarEntries(s0, p, Branch(p, q));
          EmptyBelow(s0, p, q, j);
        } else {
          UnderFacts(p, q);
          NoFarEntries(s0, q, j);
        }
        PendingEmpty(mode, s0, s, c, q, j);
      }
    }
  }

  /** Entering entry `i`: everything below it is still pending. */
  lemma CopiedEnter(mode: Mode, s0: State, s: State, s1: State, p: Path, c: nat, i: nat)
    requires Depth(p) < 3 && Copied(mode, s0, s, p, c, i) && SameSlots(s.m, s.t, s1.m, s1.t)
    ensures Copied(mode, s0, s1, Sub(p, i), c, 0)
  {
    hide Slot;
    forall q, j: nat | Depth(q) == 3 && Under(Sub(p, i), q)
      ensures SlotPending(s0, s1, c, q, j)
    {
      UnderEntry(p, i, q);
      RebaseFacts(q, c);
      assert !Passed(p, q, j, i);
      assert SlotPending(s0, s, c, q, j);
    }
  }

  /** All pages that space `id` maps are RAM. */
  ghost predicate Backed(s: State, id: nat) {
    forall q, j: nat :: IsLeaf(s, id, q, j) ==> SlotOf(s, q, j).frame in s.m
  }

  /** The parent's pages hold in `s` what they held in `s0`. */
  lemma PageUnchanged(s0: State, s: State, c: nat, q: Path, j: nat)
    requires Building(s0, s, c) && Depth(q) == 3 && SlotOf(s0, q, j).valid && SlotOf(s0, q, j).frame in s0.m
    ensures SlotOf(s0, q, j).frame in s.m && s.m[SlotOf(s0, q, j).frame] == s0.m[SlotOf(s0, q, j).frame]
  {
    assert LeafClear(s0.m, s0.t, s0.free, q, j);
  }

  /** The state of slot `i` when the level-3 loop reaches it. */
  lemma AtSlot(mode: Mode, s0: State, s: State, p: Path, c: nat, i: nat)
    requires Depth(p) == 3 && i < WORDS && Building(s0, s, c) && p in s.t && Rebase(p, c) in s.t
    requires Copied(mode, s0, s, p, c, i)
    ensures SlotPending(s0, s, c, p, i)
    ensures s.t[p] in s.m && s.t[Rebase(p, c)] in s.m && s.t[p] !in s.free && s.t[Rebase(p, c)] !in s.free
    ensures SlotOf(s0, p, i) == if s.m[s.t[p]][i].valid then s.m[s.t[p]][i] else ZERO
    ensures !s.m[s.t[Rebase(p, c)]][i].valid
  {
    assert !Passed(p, p, i, i) && Under(p, p);
    assert SlotPending(s0, s, c, p, i);
  }

  lemma EagerLeaf(s0: State, s: State, p: Path, c: nat, i: nat, w: Word, s': State)
    requires Copying(Eager, s0, s, c) && Depth(p) == 3 && Owner(p) != c && i < WORDS
    requires Copied(Eager, s0, s, p, c, i) && SlotPending(s0, s, c, p, i)
    requires SlotOf(s, p, i) == w && w.valid && w.frame in s0.m && w.frame in s.m && s.free != []
    requires EagerStep(s, Rebase(p, c), i, s.m[w.frame], w.(frame := s.free[0]), s')
    ensures Copying(Eager, s0, s', c) && Framed(s, s', p, Rebase(p, c)) && Copied(Eager, s0, s', p, c, i + 1)
  {
    hide Good, Forest, Separated, EagerStep, FreshLeaves, Accounted, Untouched, Copied;
    var v := w.(frame := s.free[0]);
    RebaseFacts(p, c);
    CopyPage(s0, s, c, Rebase(p, c), i, s.m[w.frame], v, s');
    PageUnchanged(s0, s, c, p, i);
    FramedWider(s, s', p, Rebase(p, c));
    assert forall j: nat :: SlotOf(s', p, j) == SlotOf(s, p, j);
    assert forall j: nat :: j != i ==> SlotOf(s', Rebase(p, c), j) == SlotOf(s, Rebase(p, c), j);
    assert SlotOf(s', Rebase(p, c), i) == v;
    hide SlotOf, Slot, OneSlot, Framed;
    CopiedLeafStep(Eager, s0, s, s', p, c, i);
  }

  lemma FramedWider(s: State, s': State, p: Path, d: Path)
    requires Framed(s, s', d, d)
    ensures Framed(s, s', p, d) && PagesKept(s.m, s.t, s.free, s'.m)
  {
  }

  lemma LazyLeaf(s0: State, s: State, p: Path, c: nat, i: nat, s': State)
    requires Copying(Lazy, s0, s, c) && Depth(p) == 3 && Owner(p) != c && i < WORDS
    requires Copied(Lazy, s0, s, p, c, i) && SlotPending(s0, s, c, p, i)
    requires LazyStep(s, p, Rebase(p, c), i, s')
    ensures Copying(Lazy, s0, s', c) && Framed(s, s', p, Rebase(p, c)) && Copied(Lazy, s0, s', p, c, i + 1)
  {
    hide Good, Forest, Separated, LazyStep, Copied;
    RebaseFacts(p, c);
    SharePage(s0, s, c, p, Rebase(p, c), i, s');
    LazyStepGood(s, p, Rebase(p, c), i, s');
    assert forall j: nat :: j != i ==> SlotOf(s', p, j) == SlotOf(s, p, j);
    assert forall j: nat :: j != i ==> SlotOf(s', Rebase(p, c), j) == SlotOf(s, Rebase(p, c), j);
    assert SlotCopied(Lazy, s0, s', c, p, i);
    hide SlotOf, Slot;
    CopiedLeafStep(Lazy, s0, s, s', p, c, i);
  }

  // ---------------------------------------------------------------------------
  // Before and after the first shared page
  // ---------------------------------------------------------------------------

  /** Some page of `parent` is mapped by space `c` as well. */
  ghost predicate SharesPage(s: State, parent: nat, c: nat) {
    exists q, j: nat :: IsLeaf(s, parent, q, j) && SlotOf(s, Rebase(q, c), j) == SlotOf(s, q, j)
  }

  /** Until a page is shared both copies do the same thing: they take tables and leave the parent alone. */
  ghost predicate Phase(s0: State, s: State, parent: nat, c: nat, shared: bool) {
    if shared then SharesPage(s, parent, c) && Backed(s, c) else Copying(Eager, s0, s, c)
  }

  lemma PhaseBacked(s0: State, s: State, parent: nat, c: nat, shared: bool)
    requires Building(s0, s, c) && Phase(s0, s, parent, c, shared)
    ensures Backed(s, c)
  {
    hide Forest, Separated, Slot;
    if !shared {
      forall q, j: nat | IsLeaf(s, c, q, j)
        ensures SlotOf(s, q, j).frame in s.m
      {
        assert SlotOf(s, q, j).frame in s0.free;
      }
    }
  }

  lemma PhaseLink(mode: Mode, s0: State, s: State, parent: nat, c: nat, d: Path, i: nat, s': State, shared: bool)
    requires Copying(mode, s0, s, c) && Phase(s0, s, parent, c, shared) && Owner(d) == c && LinkStep(s, d, i, s')
    ensures Phase(s0, s', parent, c, shared)
  {
    hide Good, LinkStep, FreshLeaves, Accounted, Untouched, PagesKept;
    if shared {
      LinkChild(mode, s0, s, c, d, i, s');
      FramedWider(s, s', d, d);
      SameFrames(s.m, s.t, s.free, s'.m);
      assert forall q, j: nat :: Depth(q) == 3 ==> SlotOf(s', q, j) == SlotOf(s, q, j);
      hide Slot, SlotOf, SameSlots, Framed;
      var q, j: nat :| IsLeaf(s, parent, q, j) && SlotOf(s, Rebase(q, c), j) == SlotOf(s, q, j);
      RebaseFacts(q, c);
      assert IsLeaf(s', parent, q, j);
      forall r, k: nat | IsLeaf(s', c, r, k)
        ensures SlotOf(s', r, k).frame in s'.m
      {
        assert IsLeaf(s, c, r, k);
      }
    } else {
      LinkChild(Eager, s0, s, c, d, i, s');
    }
  }

  lemma SameFrames(m: Memory, t: Tables, free: seq<Frame>, m': Memory)
    requires PagesKept(m, t, free, m')
    ensures m'.Keys == m.Keys
  {
  }

  lemma PhaseShare(s0: State, s: State, p: Path, c: nat, i: nat, s': State, shared: bool)
    requires Copying(Lazy, s0, s, c) && Phase(s0, s, Owner(p), c, shared) && Owner(p) != c
    requires LazyStep(s, p, Rebase(p, c), i, s') && SlotOf(s, p, i).frame in s.m
    ensures Phase(s0, s', Owner(p), c, true)
  {
    PhaseBacked(s0, s, Owner(p), c, shared);
    RebaseFacts(p, c);
    assert Depth(p) == 3 && s'.m.Keys == s.m.Keys;
    LazyStepGood(s, p, Rebase(p, c), i, s');
    hide Good, Copying, Phase, Slot, SlotOf, LazyStep;
    assert SlotOf(s', p, i) == Cow(SlotOf(s, p, i)) == SlotOf(s', Rebase(p, c), i);
    assert IsLeaf(s', Owner(p), p, i);
    assert SharesPage(s', Owner(p), c);
    forall q, j: nat | IsLeaf(s', c, q, j)
      ensures SlotOf(s', q, j).frame in s'.m
    {
      if q != Rebase(p, c) || j != i { assert IsLeaf(s, c, q, j); }
    }
    SharedPhase(s0, s', Owner(p), c);
  }

  lemma SharedPhase(s0: State, s: State, parent: nat, c: nat)
    requires SharesPage(s, parent, c) && Backed(s, c)
    ensures Phase(s0, s, parent, c, true)
  {
  }

  // ---------------------------------------------------------------------------
  // The loops
  // ---------------------------------------------------------------------------

  /** The level-3 loop.  Only the eager copy allocates here.  `shared` says whether a page has been shared yet;
      the code keeps no such flag and nothing depends on it but what callers are told. */
  method CopyLeaves(pa: PhysicalAllocator, src: Frame, dst: Frame, mode: Mode,
                    ghost s0: State, ghost p: Path, ghost c: nat, ghost t: Tables, shared: bool)
    returns (ok: bool, shared': bool)
    requires pa.Valid() && Copying(mode, s0, Now(pa, t), c) && Copied(mode, s0, Now(pa, t), p, c, 0)
    requires p in t && t[p] == src && Rebase(p, c) in t && t[Rebase(p, c)] == dst
    requires Depth(p) == 3 && Owner(p) != c && Backed(s0, Owner(p))
    requires Phase(s0, Now(pa, t), Owner(p), c, shared) && (mode.Eager? ==> !shared)
    modifies pa
    ensures pa.Valid() && Copying(mode, s0, Now(pa, t), c)
    ensures Framed(old(Now(pa, t)), Now(pa, t), p, Rebase(p, c))
    ensures ok ==> CopiedAll(mode, s0, Now(pa, t), p, c)
    ensures Phase(s0, Now(pa, t), Owner(p), c, shared')
    ensures Tally(mode.Eager?, s0.m, s0.t, p, WORDS, |old(pa.free)|, |pa.free|, ok, shared, shared')
  {
    ghost var d := Rebase(p, c);
    ghost var start := Now(pa, t);
    hide Good, Forest, Separated, FreshLeaves, Accounted, Untouched, Copied, Framed, Slot, SlotPending, IsFreeList,
      PagesKept, Tally, EntryTally, Phase, Backed, Building, CopiedAll, Distinct;
    BuildingGood(s0, start, c);
    FramedRefl(start, p, d);
    RebaseFacts(p, c);
    shared' := shared;
    TallyStart(mode.Eager?, s0.m, s0.t, p, |pa.free|, shared);
    for i := 0 to WORDS
      invariant pa.Valid() && Copying(mode, s0, Now(pa, t), c) && Copied(mode, s0, Now(pa, t), p, c, i)
      invariant Framed(start, Now(pa, t), p, d)
      invariant Phase(s0, Now(pa, t), Owner(p), c, shared') && (mode.Eager? ==> !shared')
      invariant Tally(mode.Eager?, s0.m, s0.t, p, i, |start.free|, |pa.free|, true, shared, shared')
    {
      ghost var s := Now(pa, t);
      BuildingGood(s0, s, c);
      AtSlot(mode, s0, s, p, c, i);
      var w := pa.mem[src][i];
      if !w.valid {
        CopiedSkip(mode, s0, s, p, c, i);
        EntryNothing(mode.Eager?, s0.m, s0.t, p, i, |pa.free|, shared');
        TallyStep(mode.Eager?, s0.m, s0.t, p, i, |start.free|, |s.free|, |s.free|, shared, shared', shared');
        continue;
      }
      assert SlotOf(s, p, i) == w by { SlotIs(s, p, i); }
      LeafBacked(s0, s, p, c, i);
      EntryPage(mode.Eager?, s0.m, s0.t, p, i, |pa.free|, shared');
      match mode
      case Lazy =>
        DifferentTables(s, p, d);
        pa.Store(src, i, Cow(w));
        pa.Store(dst, i, Cow(w));
        LazyLeaf(s0, s, p, c, i, Now(pa, t));
        PhaseShare(s0, s, p, c, i, Now(pa, t), shared');
        FramedTrans(start, s, Now(pa, t), p, d, p, d);
        TallyStep(false, s0.m, s0.t, p, i, |start.free|, |s.free|, |s.free|, shared, shared', true);
        shared' := true;
      case Eager =>
        var page := pa.Alloc();
        if page.None? {
          TallyStop(true, s0.m, s0.t, p, i, WORDS, |start.free|, 0, 0, shared, shared', false);
          return false, shared';
        }
        TablesNotFree(s);
        pa.Fill(page.value, pa.mem[w.frame]);
        pa.Store(dst, i, w.(frame := page.value));
        EagerLeaf(s0, s, p, c, i, w, Now(pa, t));
        EagerPhase(s0, Now(pa, t), Owner(p), c);
        FramedTrans(start, s, Now(pa, t), p, d, p, d);
        TallyStep(true, s0.m, s0.t, p, i, |start.free|, |s.free|, |s.free| - 1, shared, shared', shared');
    }
    CopiedFull(mode, s0, Now(pa, t), p, c);
    return true, shared';
  }

  lemma BuildingGood(s0: State, s: State, c: nat)
    requires Building(s0, s, c)
    ensures Good(s0) && Good(s)
  {
  }

  lemma EagerPhase(s0: State, s: State, parent: nat, c: nat)
    requires Copying(Eager, s0, s, c)
    ensures Phase(s0, s, parent, c, false)
  {
  }

  lemma SlotIs(s: State, p: Path, i: nat)
    requires p in s.t && s.t[p] in s.m && i < WORDS && s.m[s.t[p]][i].valid
    ensures SlotOf(s, p, i) == s.m[s.t[p]][i]
  {
  }

  lemma DifferentTables(s: State, p: Path, d: Path)
    requires Good(s) && p in s.t && d in s.t && Owner(p) != Owner(d)
    ensures s.t[p] != s.t[d]
  {
  }

  lemma LeafBacked(s0: State, s: State, p: Path, c: nat, i: nat)
    requires Building(s0, s, c) && Backed(s0, Owner(p)) && Depth(p) == 3
    requires SlotPending(s0, s, c, p, i) && SlotOf(s, p, i).valid
    ensures SlotOf(s, p, i).frame in s0.m && SlotOf(s, p, i).frame in s.m
  {
    assert IsLeaf(s0, Owner(p), p, i);
  }

  /** A table entry of the parent, as the loops above level 3 find it. */
  lemma AtEntry(s0: State, s: State, p: Path, c: nat, i: nat)
    requires Building(s0, s, c) && p in s.t && Owner(p) != c && Depth(p) < 3 && i < WORDS
    ensures s.t[p] in s.m
    ensures s.m[s.t[p]][i].valid <==> Sub(p, i) in s.t
    ensures s.m[s.t[p]][i].valid <==> Sub(p, i) in s0.t
    ensures s.m[s.t[p]][i].valid ==> s.t[Sub(p, i)] == s.m[s.t[p]][i].frame
  {
    assert Linked(s.m, s.t, p, i);
    assert Owner(Sub(p, i)) == Owner(p);
  }

  lemma CopiedSame(mode: Mode, s0: State, s: State, s1: State, p: Path, c: nat, i: nat)
    requires Good(s) && Copied(mode, s0, s, p, c, i)
    requires SameSlots(s.m, s.t, s1.m, s1.t) && PagesKept(s.m, s.t, s.free, s1.m)
    ensures Copied(mode, s0, s1, p, c, i)
  {
    hide Good, Slot, SlotCopied, PagesKept;
    forall q, j: nat | Depth(q) == 3 && Under(p, q)
      ensures if Passed(p, q, j, i) then SlotCopied(mode, s0, s1, c, q, j) else SlotPending(s0, s1, c, q, j)
    {
      RebaseFacts(q, c);
      if Passed(p, q, j, i) {
        SlotCopiedKept(mode, s0, s, s1, c, q, j);
      } else {
        assert SlotPending(s0, s, c, q, j);
      }
    }
  }

  /** The three framed parts of one round: before, linking the table, copying what is below it. */
  lemma RoundFramed(start: State, s: State, s1: State, s2: State, p: Path, d: Path, i: nat)
    requires Good(start) && Good(s1) && d in s1.t && Framed(start, s, p, d) && Framed(s, s1, d, d)
    requires Framed(s1, s2, Sub(p, i), Sub(d, i)) && Owner(p) != Owner(d)
    ensures Framed(start, s2, p, d)
    ensures s1.t[d] in s2.m && s1.t[d] in s1.m && s2.m[s1.t[d]] == s1.m[s1.t[d]]
  {
    hide Good;
    forall q | Under(Sub(p, i), q) ensures Under(p, q) { UnderEntry(p, i, q); }
    forall q | Under(Sub(d, i), q) ensures Under(d, q) && q != d { UnderEntry(d, i, q); }
    FramedWider(s, s1, p, d);
    if Under(Sub(p, i), d) { UnderFacts(Sub(p, i), d); }
    TablesNotFree(s1);
    assert d in s1.t && !Under(Sub(p, i), d) && !Under(Sub(d, i), d);
    assert s2.m[s1.t[d]] == s1.m[s1.t[d]];
    hide Framed;
    FramedTrans(start, s, s1, p, d, p, d);
    FramedTrans(start, s1, s2, p, d, Sub(p, i), Sub(d, i));
  }

  ghost predicate EmptyFrom(page: Page, i: nat) {
    forall j :: i <= j < WORDS ==> !page[j].valid
  }

  function EntryBound(level: nat): nat {
    if level == 0 then 256 else WORDS
  }

  /** One valid entry above level 3: link a new table for the child and copy what is below it. */
  method CopyEntry(pa: PhysicalAllocator, below: Frame, dst: Frame, i: nat, level: nat, mode: Mode,
                   ghost s0: State, ghost p: Path, ghost c: nat, ghost t: Tables, shared: bool)
    returns (ok: bool, ghost t': Tables, shared': bool)
    requires pa.Valid() && Copying(mode, s0, Now(pa, t), c) && Copied(mode, s0, Now(pa, t), p, c, i)
    requires Rebase(p, c) in t && t[Rebase(p, c)] == dst && Sub(p, i) in t && t[Sub(p, i)] == below && i < WORDS
    requires Depth(p) == level < 3 && Owner(p) != c && Backed(s0, Owner(p)) && Sub(p, i) in s0.t
    requires dst in pa.mem && EmptyFrom(pa.mem[dst], i)
    requires Phase(s0, Now(pa, t), Owner(p), c, shared) && (mode.Eager? ==> !shared)
    modifies pa
    ensures pa.Valid() && Copying(mode, s0, Now(pa, t'), c)
    ensures Framed(old(Now(pa, t)), Now(pa, t'), p, Rebase(p, c))
    ensures ok ==> Copied(mode, s0, Now(pa, t'), p, c, i + 1)
    ensures dst in pa.mem && EmptyFrom(pa.mem[dst], i + 1)
    ensures Phase(s0, Now(pa, t'), Owner(p), c, shared')
    ensures EntryTally(mode.Eager?, s0.m, s0.t, p, i, |old(pa.free)|, |pa.free|, ok, shared, shared')
    decreases 3 - level, 0
  {
    ghost var d := Rebase(p, c);
    ghost var s := Now(pa, t);
    hide Good, Forest, Separated, FreshLeaves, Accounted, Untouched, Copied, CopiedAll, Framed, Slot, SlotPending,
      IsFreeList, PagesKept, SameSlots, Backed, EmptyFrom, Tally, EntryTally, Phase;
    FramedRefl(s, p, d);
    RebaseFacts(p, c);
    TablesNotFree(s);
    EmptyStep(pa.mem[dst], i);
    EntryNoTable(mode.Eager?, s0.m, s0.t, p, i, shared);
    var table := pa.CreateTable();
    if table.None? {
      return false, t, shared;
    }
    pa.Store(dst, i, TableWord(table.value));
    ghost var t1 := t[Sub(d, i) := table.value];
    ghost var s1 := Now(pa, t1);
    RoundStart(mode, s0, s, p, c, i, s1);
    PhaseLink(mode, s0, s, Owner(p), c, d, i, s1, shared);
    if level == 2 {
      ok, shared' := CopyLeaves(pa, below, table.value, mode, s0, Sub(p, i), c, t1, shared);
      t' := t1;
    } else {
      ok, t', shared' := CopyTable(pa, below, table.value, level + 1, mode, s0, Sub(p, i), c, t1, shared);
    }
    EntryBelow(mode.Eager?, s0.m, s0.t, p, i, |s.free|, |pa.free|, ok, shared, shared');
    RoundFramed(s, s, s1, Now(pa, t'), p, d, i);
    if ok {
      RoundEnd(mode, s0, s1, Now(pa, t'), p, c, i);
    }
  }

  /** The loops at levels 0 to 2.  Level 0 stops at entry 256: the upper half is the kernel's.  The copy
      succeeds exactly when the list holds the frames it takes, and the lazy copy has shared a page exactly
      when the list held the tables up to the first page. */
  method CopyTable(pa: PhysicalAllocator, src: Frame, dst: Frame, level: nat, mode: Mode,
                   ghost s0: State, ghost p: Path, ghost c: nat, ghost t: Tables, shared: bool)
    returns (ok: bool, ghost t': Tables, shared': bool)
    requires pa.Valid() && Copying(mode, s0, Now(pa, t), c) && Copied(mode, s0, Now(pa, t), p, c, 0)
    requires p in t && t[p] == src && Rebase(p, c) in t && t[Rebase(p, c)] == dst
    requires Depth(p) == level < 3 && Owner(p) != c && Backed(s0, Owner(p))
    requires dst in pa.mem && EmptyFrom(pa.mem[dst], 0)
    requires Phase(s0, Now(pa, t), Owner(p), c, shared) && (mode.Eager? ==> !shared)
    modifies pa
    ensures pa.Valid() && Copying(mode, s0, Now(pa, t'), c)
    ensures Framed(old(Now(pa, t)), Now(pa, t'), p, Rebase(p, c))
    ensures ok ==> Copied(mode, s0, Now(pa, t'), p, c, EntryBound(level))
    ensures dst in pa.mem && EmptyFrom(pa.mem[dst], EntryBound(level))
    ensures Phase(s0, Now(pa, t'), Owner(p), c, shared')
    ensures Tally(mode.Eager?, s0.m, s0.t, p, EntryBound(level), |old(pa.free)|, |pa.free|, ok, shared, shared')
    decreases 3 - level, 1
  {
    ghost var d := Rebase(p, c);
    ghost var start := Now(pa, t);
    hide Good, Forest, Separated, FreshLeaves, Accounted, Untouched, Copied, CopiedAll, Framed, Slot, SlotPending,
      IsFreeList, PagesKept, SameSlots, Backed, EmptyFrom, Tally, EntryTally, Phase;
    FramedRefl(start, p, d);
    t', shared' := t, shared;
    TallyStart(mode.Eager?, s0.m, s0.t, p, |pa.free|, shared);
    for i := 0 to EntryBound(level)
      invariant pa.Valid() && Copying(mode, s0, Now(pa, t'), c) && Copied(mode, s0, Now(pa, t'), p, c, i)
      invariant Framed(start, Now(pa, t'), p, d)
      invariant p in t' && t'[p] == src && d in t' && t'[d] == dst
      invariant dst in pa.mem && EmptyFrom(pa.mem[dst], i)
      invariant Phase(s0, Now(pa, t'), Owner(p), c, shared') && (mode.Eager? ==> !shared')
      invariant Tally(mode.Eager?, s0.m, s0.t, p, i, |start.free|, |pa.free|, true, shared, shared')
    {
      ghost var s := Now(pa, t');
      var was := shared';
      AtEntry(s0, s, p, c, i);
      EmptyStep(pa.mem[dst], i);
      var w := pa.mem[src][i];
      if !w.valid {
        CopiedSkip(mode, s0, s, p, c, i);
        EntryNothing(mode.Eager?, s0.m, s0.t, p, i, |s.free|, was);
        TallyStep(mode.Eager?, s0.m, s0.t, p, i, |start.free|, |s.free|, |s.free|, shared, was, was);
        continue;
      }
      ok, t', shared' := CopyEntry(pa, w.frame, dst, i, level, mode, s0, p, c, t', was);
      FramedTrans(start, s, Now(pa, t'), p, d, p, d);
      FramedTables(s, Now(pa, t'), p, d);
      if !ok {
        EmptyLater(pa.mem[dst], i + 1, EntryBound(level));
        TallyStop(mode.Eager?, s0.m, s0.t, p, i, EntryBound(level), |start.free|, |s.free|, |pa.free|, shared, was,
                  shared');
        return;
      }
      TallyStep(mode.Eager?, s0.m, s0.t, p, i, |start.free|, |s.free|, |pa.free|, shared, was, shared');
      TallyQuiet(mode.Eager?, s0.m, s0.t, p, i + 1, |start.free|, |pa.free|, true, shared, shared');
    }
    return true, t', shared';
  }

  lemma EmptyStep(page: Page, i: nat)
    requires EmptyFrom(page, i) && i < WORDS
    ensures EmptyFrom(page, i + 1) && !page[i].valid
  {
  }

  lemma EmptyLater(page: Page, i: nat, j: nat)
    requires EmptyFrom(page, i) && i <= j
    ensures EmptyFrom(page, j)
  {
  }

  /** Linking the table for entry `i` leaves all copied slots copied and those below it pending. */
  lemma RoundStart(mode: Mode, s0: State, s: State, p: Path, c: nat, i: nat, s1: State)
    requires Copying(mode, s0, s, c) && Copied(mode, s0, s, p, c, i) && Depth(p) < 3
    requires LinkStep(s, Rebase(p, c), i, s1) && EmptyFrom(s.m[s.t[Rebase(p, c)]], i)
    ensures Copying(mode, s0, s1, c) && Framed(s, s1, Rebase(p, c), Rebase(p, c))
    ensures Copied(mode, s0, s1, p, c, i) && Copied(mode, s0, s1, Sub(p, i), c, 0)
    ensures forall q :: q in s.t ==> q in s1.t && s1.t[q] == s.t[q]
    ensures s.free != [] && s.free[0] in s1.m && EmptyFrom(s1.m[s.free[0]], 0)
    ensures s1.t[Rebase(p, c)] in s1.m && EmptyFrom(s1.m[s1.t[Rebase(p, c)]], i + 1)
  {
    hide Good, Copied, Framed, LinkStep, FreshLeaves, Accounted, Untouched, SameSlots, PagesKept;
    RebaseFacts(p, c);
    LinkStepTables(s, Rebase(p, c), i, s1);
    LinkChild(mode, s0, s, c, Rebase(p, c), i, s1);
    CopiedEnter(mode, s0, s, s1, p, c, i);
    FramedWider(s, s1, Rebase(p, c), Rebase(p, c));
    CopiedSame(mode, s0, s, s1, p, c, i);
    FramedTables(s, s1, Rebase(p, c), Rebase(p, c));
  }

  lemma RoundEnd(mode: Mode, s0: State, s1: State, s2: State, p: Path, c: nat, i: nat)
    requires Good(s0) && Good(s1) && Depth(p) < 3 && Owner(p) != c && Copied(mode, s0, s1, p, c, i)
    requires Framed(s1, s2, Sub(p, i), Sub(Rebase(p, c), i))
    requires if Depth(p) == 2 then CopiedAll(mode, s0, s2, Sub(p, i), c) else Copied(mode, s0, s2, Sub(p, i), c, WORDS)
    ensures Copied(mode, s0, s2, p, c, i + 1)
    ensures forall q :: q in s1.t ==> q in s2.t && s2.t[q] == s1.t[q]
  {
    hide Good, Copied, CopiedAll, Framed;
    if Depth(p) < 2 {
      CopiedFull(mode, s0, s2, Sub(p, i), c);
    }
    CopiedEntryStep(mode, s0, s1, s2, p, c, i);
    FramedTables(s1, s2, Sub(p, i), Sub(Rebase(p, c), i));
  }

  lemma FramedTables(s: State, s': State, p: Path, d: Path)
    requires Framed(s, s', p, d)
    ensures forall q :: q in s.t ==> q in s'.t && s'.t[q] == s.t[q]
  {
  }

  // ---------------------------------------------------------------------------
  // The new root
  // ---------------------------------------------------------------------------

  ghost predicate NewSpace(t: Tables, c: nat) {
    forall q :: q in t ==> Owner(q) != c
  }

  /** Memory with a zeroed level-0 table for space `c` taken off the list. */
  function RootAdded(s: State, c: nat): State
    requires s.free != []
  {
    State(s.m[s.free[0] := ZeroPage()], s.t[Root(c) := s.free[0]], s.free[1..])
  }

  lemma AddRootForest(s: State, c: nat)
    requires Good(s) && s.free != [] && NewSpace(s.t, c)
    ensures Forest(RootAdded(s, c).m, RootAdded(s, c).t)
    ensures SameSlots(s.m, s.t, RootAdded(s, c).m, RootAdded(s, c).t)
  {
    var m, t := RootAdded(s, c).m, RootAdded(s, c).t;
    assert Owner(Root(c)) == c;
    assert forall q :: q in s.t ==> q != Root(c) && s.t[q] != s.free[0];
    forall q, j: nat | q in t && Depth(q) < 3 && j < WORDS
      ensures Linked(m, t, q, j)
    {
      if q == Root(c) {
        assert Owner(Sub(Root(c), j)) == c;
      } else {
        assert Linked(s.m, s.t, q, j);
      }
    }
  }

  lemma AddRootGood(s: State, c: nat)
    requires Good(s) && s.free != [] && NewSpace(s.t, c)
    ensures Good(RootAdded(s, c)) && SameSlots(s.m, s.t, RootAdded(s, c).m, RootAdded(s, c).t)
    ensures PagesKept(s.m, s.t, s.free, RootAdded(s, c).m) && Untouched(s, RootAdded(s, c))
    ensures EmptyFrom(RootAdded(s, c).m[s.free[0]], 0)
  {
    AddRootForest(s, c);
    var m, t := RootAdded(s, c).m, RootAdded(s, c).t;
    hide SameSlots;
    assert forall q :: q in s.t ==> t[q] == s.t[q] && s.t[q] != s.free[0];
    forall q, j: nat | q in t && Depth(q) == 3 && j < WORDS
      ensures LeafClear(m, t, s.free[1..], q, j)
    {
      assert LeafClear(s.m, s.t, s.free, q, j);
    }
  }

  /** With the root added, a copy of `parent` is under way and everything is pending. */
  lemma StartCopying(mode: Mode, s: State, parent: nat, c: nat)
    requires Good(s) && s.free != [] && NewSpace(s.t, c) && parent != c
    ensures Copying(mode, s, RootAdded(s, c), c)
    ensures Copied(mode, s, RootAdded(s, c), Root(parent), c, 0)
  {
    var s1 := RootAdded(s, c);
    AddRootGood(s, c);
    hide Good, PagesKept, Untouched, Slot;
    assert s.free[0] in s.free;
    assert forall q :: q in s1.t <==> q in s.t || q == Root(c);
    assert Building(s, s1, c);
    assert forall q, j: nat :: Depth(q) == 3 ==> SlotOf(s1, q, j) == SlotOf(s, q, j);
    assert forall q, j: nat :: Owner(q) == c ==> SlotOf(s, q, j) == ZERO by { NewSpaceEmpty(s, c); }
    assert forall f :: f in s.free ==> f in s1.free || HasTable(s1, c, f) by {
      assert Root(c) in s1.t && Owner(Root(c)) == c;
    }
    forall q, j: nat | Depth(q) == 3 && Under(Root(parent), q)
      ensures SlotPending(s, s1, c, q, j)
    {
      RebaseFacts(q, c);
    }
  }

  lemma NewSpaceEmpty(s: State, c: nat)
    requires NewSpace(s.t, c)
    ensures forall q, j: nat :: Owner(q) == c ==> SlotOf(s, q, j) == ZERO
  {
  }
}
