/** Four-level translation tables stored in physical frames.

  Every table of every address space is named by its path: the address space it belongs to and the
  entry indices followed from that space's level-0 table.  A forest `t` gives the frame of each
  path, so keeping all tables of all address spaces apart is one injectivity statement.
 */
module PageTables {
  import opened Options
  import opened PhysicalMemory

  datatype Path = Root(id: nat) | Sub(up: Path, index: nat)

  function Depth(p: Path): nat {
    match p
    case Root(_) => 0
    case Sub(u, _) => Depth(u) + 1
  }

  function Owner(p: Path): nat {
    match p
    case Root(id) => id
    case Sub(u, _) => Owner(u)
  }

  // ---------------------------------------------------------------------------
  // Index extraction
  // ---------------------------------------------------------------------------

  function Index0(va: nat): (i: nat) ensures i < WORDS { (va / 0x80_0000_0000) % 512 }
  function Index1(va: nat): (i: nat) ensures i < WORDS { (va / 0x4000_0000) % 512 }
  function Index2(va: nat): (i: nat) ensures i < WORDS { (va / 0x20_0000) % 512 }
  function Index3(va: nat): (i: nat) ensures i < WORDS { (va / 0x1000) % 512 }

  /** The 36-bit page number a table walk can distinguish. */
  function PageNumber(va: nat): nat { (va / 0x1000) % 0x10_0000_0000 }

  ghost predicate Proper(p: Path) {
    match p
    case Root(_) => true
    case Sub(u, i) => i < WORDS && Depth(p) <= 3 && Proper(u)
  }

  function Path1(id: nat, va: nat): (p: Path)
    ensures Depth(p) == 1 && Owner(p) == id && Proper(p)
  {
    Sub(Root(id), Index0(va))
  }

  function Path2(id: nat, va: nat): (p: Path)
    ensures Depth(p) == 2 && Owner(p) == id && Proper(p)
  {
    Sub(Path1(id, va), Index1(va))
  }

  function Path3(id: nat, va: nat): (p: Path)
    ensures Depth(p) == 3 && Owner(p) == id && Proper(p)
  {
    Sub(Path2(id, va), Index2(va))
  }

  /** The four indices are the base-512 digits of the page number. */
  lemma IndicesOfPage(va: nat)
    ensures PageNumber(va)
         == ((Index0(va) * 512 + Index1(va)) * 512 + Index2(va)) * 512 + Index3(va)
  {
    var p := va / 0x1000;
    assert va / 0x20_0000 == p / 512 && va / 0x4000_0000 == p / 0x4_0000
        && va / 0x80_0000_0000 == p / 0x800_0000;
    assert p / 0x4_0000 == p / 512 / 512 && p / 0x800_0000 == p / 512 / 512 / 512;
  }

  lemma DigitsUnique(a: nat, x: nat, b: nat, y: nat)
    requires x < 512 && y < 512
    ensures a * 512 + x == b * 512 + y <==> a == b && x == y
  {
  }

  /** Two addresses use the same leaf slot exactly when they lie in the same 48-bit page. */
  lemma SlotIffPage(id: nat, va: nat, va': nat)
    ensures Path3(id, va) == Path3(id, va') && Index3(va) == Index3(va')
       <==> PageNumber(va) == PageNumber(va')
  {
    IndicesOfPage(va);
    IndicesOfPage(va');
    var (a0, a1, a2, a3) := (Index0(va), Index1(va), Index2(va), Index3(va));
    var (b0, b1, b2, b3) := (Index0(va'), Index1(va'), Index2(va'), Index3(va'));
    DigitsUnique((a0 * 512 + a1) * 512 + a2, a3, (b0 * 512 + b1) * 512 + b2, b3);
    DigitsUnique(a0 * 512 + a1, a2, b0 * 512 + b1, b2);
    DigitsUnique(a0, a1, b0, b1);
  }

  // ---------------------------------------------------------------------------
  // The hardware walk
  // ---------------------------------------------------------------------------

  /** The frame a walk along `p` from `root` reaches, if every entry on the way is valid. */
  function WalkPath(m: Memory, root: Frame, p: Path): Option<Frame> {
    match p
    case Root(_) => Some(root)
    case Sub(u, i) =>
      match WalkPath(m, root, u)
      case None => None
      case Some(f) => if f in m && i < WORDS && m[f][i].valid then Some(m[f][i].frame) else None
  }

  /** The leaf descriptor the hardware finds for `va`; ZERO stands for a translation fault. */
  function Translate(m: Memory, root: Frame, va: nat): Word {
    match WalkPath(m, root, Path3(0, va))
    case None => ZERO
    case Some(f) => if f in m && m[f][Index3(va)].valid then m[f][Index3(va)] else ZERO
  }

  // ---------------------------------------------------------------------------
  // The forest of tables
  // ---------------------------------------------------------------------------

  type Tables = map<Path, Frame>

  function TableWord(f: Frame): Word {
    Word(true, true, 0, false, f, 0)
  }

  ghost predicate Linked(m: Memory, t: Tables, p: Path, i: nat)
    requires p in t && t[p] in m && i < WORDS
  {
    if m[t[p]][i].valid then Sub(p, i) in t && t[Sub(p, i)] == m[t[p]][i].frame else Sub(p, i) !in t
  }

  /** `t` is exactly the set of tables reachable from its roots, and no two paths share a frame. */
  ghost predicate Forest(m: Memory, t: Tables) {
    && (forall p :: p in t ==> Depth(p) <= 3 && t[p] in m)
    && (forall p, i: nat :: Sub(p, i) in t ==> p in t && i < WORDS)
    && (forall p, i: nat | p in t && Depth(p) < 3 && i < WORDS :: Linked(m, t, p, i))
    && (forall p, q :: p in t && q in t && p != q ==> t[p] != t[q])
  }

  /** The leaf entry `i` of the level-3 table `p`. */
  function Leaf(m: Memory, t: Tables, p: Path, i: nat): Word
    requires p in t && t[p] in m && i < WORDS
  {
    m[t[p]][i]
  }

  ghost predicate NotATable(t: Tables, f: Frame) {
    forall q :: q in t ==> t[q] != f
  }

  ghost predicate LeafClear(m: Memory, t: Tables, free: seq<Frame>, p: Path, i: nat)
    requires p in t && t[p] in m && i < WORDS
  {
    Leaf(m, t, p, i).valid ==> Leaf(m, t, p, i).frame !in free && NotATable(t, Leaf(m, t, p, i).frame)
  }

  /** Table frames, mapped frames and free frames are three disjoint kinds. */
  ghost predicate Separated(m: Memory, t: Tables, free: seq<Frame>)
    requires Forest(m, t)
  {
    && (forall p :: p in t ==> t[p] !in free)
    && (forall p, i: nat | p in t && Depth(p) == 3 && i < WORDS :: LeafClear(m, t, free, p, i))
  }

  ghost predicate Sound(pa: PhysicalAllocator, t: Tables)
    reads pa
  {
    pa.Valid() && Forest(pa.mem, t) && Separated(pa.mem, t, pa.free)
  }

  /** The valid leaf in slot `i` of level-3 table `p`, or ZERO. */
  function Slot(m: Memory, t: Tables, p: Path, i: nat): Word {
    if p in t && t[p] in m && i < WORDS && m[t[p]][i].valid then m[t[p]][i] else ZERO
  }

  /** What address space `id` maps at `va`, read off the forest; ZERO when unmapped. */
  function Lookup(m: Memory, t: Tables, id: nat, va: nat): Word {
    Slot(m, t, Path3(id, va), Index3(va))
  }

  /** The walk and the forest agree, so a forest over given roots is unique. */
  lemma {:induction false} WalkFollowsForest(m: Memory, t: Tables, p: Path)
    requires Forest(m, t) && Root(Owner(p)) in t && Proper(p)
    ensures WalkPath(m, t[Root(Owner(p))], p) == if p in t then Some(t[p]) else None
  {
    match p
    case Root(_) =>
    case Sub(u, i) =>
      WalkFollowsForest(m, t, u);
      if u in t {
        assert Linked(m, t, u, i);
      }
  }

  lemma {:induction false} WalkIgnoresOwner(m: Memory, root: Frame, id: nat, id': nat, va: nat)
    ensures WalkPath(m, root, Path1(id, va)) == WalkPath(m, root, Path1(id', va))
    ensures WalkPath(m, root, Path2(id, va)) == WalkPath(m, root, Path2(id', va))
    ensures WalkPath(m, root, Path3(id, va)) == WalkPath(m, root, Path3(id', va))
  {
    assert WalkPath(m, root, Path1(id, va)) == WalkPath(m, root, Path1(id', va));
    assert WalkPath(m, root, Path2(id, va)) == WalkPath(m, root, Path2(id', va));
  }

  /** The flat view is what the hardware sees. */
  lemma LookupIsTranslate(m: Memory, t: Tables, id: nat, va: nat)
    requires Forest(m, t) && Root(id) in t
    ensures Lookup(m, t, id, va) == Translate(m, t[Root(id)], va)
  {
    WalkFollowsForest(m, t, Path3(id, va));
    WalkIgnoresOwner(m, t[Root(id)], 0, id, va);
  }

  // ---------------------------------------------------------------------------
  // Changing one entry
  // ---------------------------------------------------------------------------

  /** Memory after a zeroed table `g` is linked from entry `i` of table `f`. */
  function LinkTable(m: Memory, f: Frame, i: nat, g: Frame): Memory
    requires f in m && f != g && i < WORDS
  {
    m[g := ZeroPage()][f := m[f][i := TableWord(g)]]
  }

  /** Slot `i` of table `p` now holds `w`; every other leaf slot is as before. */
  ghost predicate OneSlot(m: Memory, t: Tables, m': Memory, t': Tables, p: Path, i: nat, w: Word) {
    forall q, j: nat :: Depth(q) == 3 ==>
      Slot(m', t', q, j) == if q == p && j == i then w else Slot(m, t, q, j)
  }

  ghost predicate SameSlots(m: Memory, t: Tables, m': Memory, t': Tables) {
    forall q, j: nat :: Depth(q) == 3 ==> Slot(m', t', q, j) == Slot(m, t, q, j)
  }

  lemma AddTableForest(m: Memory, t: Tables, g: Frame, p: Path, i: nat, m': Memory, t': Tables)
    requires Forest(m, t) && g in m && NotATable(t, g)
    requires p in t && Depth(p) < 3 && i < WORDS && !m[t[p]][i].valid
    requires m' == LinkTable(m, t[p], i, g) && t' == t[Sub(p, i) := g]
    ensures Forest(m', t')
    ensures forall q | q in t && Depth(q) == 3 :: m'[t'[q]] == m[t[q]]
    ensures forall q | q in t :: t'[q] == t[q]
  {
    assert Linked(m, t, p, i);
    forall q | q in t && q != p
      ensures t[q] in m' && m'[t[q]] == m[t[q]]
    {
      assert t[q] != t[p] && t[q] != g;
    }
    forall q, j: nat | q in t' && Depth(q) < 3 && j < WORDS
      ensures Linked(m', t', q, j)
    {
      if q == Sub(p, i) {
        assert m'[g][j] == ZERO;
        assert Sub(q, j) !in t;
      } else {
        assert Linked(m, t, q, j);
      }
    }
  }

  /** Linking a fresh table adds one empty table and changes no leaf. */
  lemma AddTable(m: Memory, t: Tables, free: seq<Frame>, p: Path, i: nat, m': Memory, t': Tables)
    requires Forest(m, t) && Separated(m, t, free)
    requires p in t && Depth(p) < 3 && i < WORDS && !m[t[p]][i].valid
    requires free != [] && free[0] in m && free[0] !in free[1..]
    requires m' == LinkTable(m, t[p], i, free[0]) && t' == t[Sub(p, i) := free[0]]
    ensures Forest(m', t') && Separated(m', t', free[1..]) && SameSlots(m, t, m', t')
  {
    AddTableForest(m, t, free[0], p, i, m', t');
    forall q, j: nat | q in t' && Depth(q) == 3 && j < WORDS
      ensures LeafClear(m', t', free[1..], q, j)
    {
      if q == Sub(p, i) {
        assert Leaf(m', t', q, j) == ZERO;
      } else {
        assert LeafClear(m, t, free, q, j);
      }
    }
    AddTableSlots(m, t, free[0], p, i, m', t');
  }

  lemma AddTableSlots(m: Memory, t: Tables, g: Frame, p: Path, i: nat, m': Memory, t': Tables)
    requires Forest(m, t) && g in m && NotATable(t, g)
    requires p in t && Depth(p) < 3 && i < WORDS && !m[t[p]][i].valid
    requires m' == LinkTable(m, t[p], i, g) && t' == t[Sub(p, i) := g]
    ensures SameSlots(m, t, m', t')
  {
    AddTableForest(m, t, g, p, i, m', t');
    assert Linked(m, t, p, i);
    forall q, j: nat | Depth(q) == 3
      ensures Slot(m', t', q, j) == Slot(m, t, q, j)
    {
      if q == Sub(p, i) {
        assert j < WORDS ==> m'[g][j] == ZERO;
      } else if q in t {
        assert m'[t'[q]] == m[t[q]];
      }
    }
  }

  lemma SetLeafSlots(m: Memory, t: Tables, p: Path, i: nat, w: Word, m': Memory)
    requires Forest(m, t) && p in t && Depth(p) == 3 && i < WORDS
    requires m' == m[t[p] := m[t[p]][i := w]]
    ensures forall q | q in t && q != p :: t[q] in m' && m'[t[q]] == m[t[q]]
    ensures OneSlot(m, t, m', t, p, i, if w.valid then w else ZERO)
  {
    forall q | q in t && q != p
      ensures t[q] in m' && m'[t[q]] == m[t[q]]
    {
      assert t[q] != t[p];
    }
  }

  /** Storing a leaf whose frame is neither a table nor free changes that leaf only. */
  lemma SetLeaf(m: Memory, t: Tables, free: seq<Frame>, p: Path, i: nat, w: Word, m': Memory)
    requires Forest(m, t) && Separated(m, t, free)
    requires p in t && Depth(p) == 3 && i < WORDS
    requires w.valid ==> w.frame !in free && NotATable(t, w.frame)
    requires m' == m[t[p] := m[t[p]][i := w]]
    ensures Forest(m', t) && Separated(m', t, free)
    ensures OneSlot(m, t, m', t, p, i, if w.valid then w else ZERO)
  {
    SetLeafSlots(m, t, p, i, w, m');
    forall q, j: nat | q in t && Depth(q) < 3 && j < WORDS
      ensures Linked(m', t, q, j)
    {
      assert Linked(m, t, q, j);
    }
    forall q, j: nat | q in t && Depth(q) == 3 && j < WORDS
      ensures LeafClear(m', t, free, q, j)
    {
      assert LeafClear(m, t, free, q, j);
    }
  }
}
