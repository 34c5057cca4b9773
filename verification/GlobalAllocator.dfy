/** The kernel's global allocator: requests up to 4096 bytes go through the slab layer, larger ones
    to the first-fit heap, and freeing takes the same route.

    Over every run of matched calls, with callers storing into what they were given, allocations stay
    apart and keep what was stored.
 */
module GlobalAllocator {
  import opened Options
  import opened HeapBlocks
  import opened HeapMemory
  import opened KernelHeap

  const SLAB_LIMIT: nat := 4096

  /** What a caller knows of one allocation: the size asked for and the words it has stored. */
  datatype Cell = Cell(size: nat, words: map<nat, nat>)

  type Cells = map<nat, Cell>

  /** One event of a run.  The two flags say whether the page allocator could map the batch of pages
      and the minimum, should the heap try to grow. */
  datatype Call =
    | Alloc(size: nat, batchOk: bool, minOk: bool)
    | Dealloc(p: nat, size: nat)
    | Poke(p: nat, offset: nat, value: nat)

  /** Freeing names a live allocation with its size; storing stays inside one. */
  predicate Matched(cells: Cells, call: Call) {
    match call
    case Alloc(_, _, _) => true
    case Dealloc(p, size) => p != 0 ==> p in cells && cells[p].size == size
    case Poke(p, offset, _) => p in cells && offset < cells[p].size && offset % 8 == 0
  }

  /** The callers' view after a call that returned `r`. */
  function After(cells: Cells, call: Call, r: Option<nat>): Cells
    requires Matched(cells, call)
  {
    match call
    case Alloc(size, _, _) => if r.Some? then cells[r.value := Cell(size, map[])] else cells
    case Dealloc(p, _) => cells - {p}
    case Poke(p, offset, value) => cells[p := cells[p].(words := cells[p].words[offset := value])]
  }

  /** The callers' view after a whole run; calls that match nothing are not made. */
  function Replay(calls: seq<Call>, results: seq<Option<nat>>): Cells
    requires |calls| == |results|
  {
    if calls == [] then map[]
    else
      var n := |calls| - 1;
      var cells := Replay(calls[..n], results[..n]);
      if Matched(cells, calls[n]) then After(cells, calls[n], results[n]) else cells
  }

  // ---------------------------------------------------------------------------
  // The callers' view and the heap
  // ---------------------------------------------------------------------------

  /** The live owners are the callers' allocations, on the route their size selects. */
  ghost predicate Tracks(owner: Owners, cells: Cells) {
    && (forall p :: p in cells <==> p in owner && owner[p].Live?)
    && (forall p :: p in cells ==> owner[p] == Live(cells[p].size, cells[p].size <= SLAB_LIMIT))
  }

  /** Every word a caller stored is still there. */
  ghost predicate Holds(m: Mem, cells: Cells) {
    forall p, i: nat :: p in cells && i in cells[p].words ==> HeldAt(m, p, cells[p], i)
  }

  ghost predicate HeldAt(m: Mem, p: nat, cell: Cell, i: nat)
    requires i in cell.words
  {
    i < cell.size && At(m, p + i) == cell.words[i]
  }

  /** Allocations are aligned, inside the heap, and share no byte with each other or with a free slot. */
  ghost predicate Apart(cells: Cells, owner: Owners, lo: nat, hi: nat) {
    && (forall p :: p in cells ==> p % MIN_ALIGN == 0 && lo <= p && p + cells[p].size <= hi)
    && (forall p, q :: p in cells && q in owner && p != q ==> Beside(cells, owner, p, q))
  }

  ghost predicate Beside(cells: Cells, owner: Owners, p: nat, q: nat)
    requires p in cells && q in owner
  {
    p + cells[p].size <= q || q + Need(owner[q]) <= p
  }

  lemma NeedCovers(size: nat)
    ensures size <= Need(Live(size, size <= SLAB_LIMIT))
  {
  }

  lemma AllApart(m: Mem, bs: seq<Block>, lo: nat, hi: nat, owner: Owners, heads: seq<nat>, slabs: seq<seq<nat>>,
                 cells: Cells)
    requires Consistent(m, bs, lo, hi, owner, heads, slabs) && Tracks(owner, cells)
    ensures Apart(cells, owner, lo, hi)
  {
    hide Need, Tiled, Owned, Encoded, SlabsOk;
    forall p | p in cells
      ensures p % MIN_ALIGN == 0 && lo <= p && p + cells[p].size <= hi
    {
      NeedCovers(cells[p].size);
      OwnedBlock(bs, owner, p);
      var k: nat :| IsUsed(bs, k, p);
      OwnerInside(bs, lo, hi, owner, k, p);
    }
    forall p, q | p in cells && q in owner && p != q
      ensures Beside(cells, owner, p, q)
    {
      NeedCovers(cells[p].size);
      OwnedBlock(bs, owner, p);
      OwnedBlock(bs, owner, q);
      var j: nat :| IsUsed(bs, j, p);
      var k: nat :| IsUsed(bs, k, q);
      OwnerInside(bs, lo, hi, owner, j, p);
      OwnerInside(bs, lo, hi, owner, k, q);
      HeapBlocks.Apart(bs, lo, hi, j, k);
    }
  }

  /** Words stay put when the heap keeps their owners' bytes. */
  lemma StillHolds(m: Mem, m': Mem, owner: Owners, cells: Cells, cells': Cells, kept: Owners)
    requires Tracks(owner, cells) && Holds(m, cells) && Kept(m, m', kept)
    requires forall p :: p in cells' && cells'[p].words != map[] ==> p in cells && cells'[p] == cells[p] && p in kept
    requires forall p :: p in kept ==> p in owner && kept[p] == owner[p]
    ensures Holds(m', cells')
  {
    hide Need;
    forall p, i: nat | p in cells' && i in cells'[p].words
      ensures HeldAt(m', p, cells'[p], i)
    {
      assert cells'[p].words != map[];
      assert HeldAt(m, p, cells[p], i);
      NeedCovers(cells[p].size);
      assert At(m', p + i) == At(m, p + i);
    }
  }

  lemma Known(owner: Owners, cells: Cells, p: nat)
    requires Tracks(owner, cells) && p in cells
    ensures p in owner && owner[p] == Live(cells[p].size, cells[p].size <= SLAB_LIMIT)
  {
  }

  lemma Allocated(m: Mem, m': Mem, owner: Owners, owner': Owners, cells: Cells, size: nat, r: Option<nat>)
    requires Tracks(owner, cells) && Holds(m, cells)
    requires r.Some? ==>
               && (r.value in owner ==> owner[r.value].Slot?)
               && owner' == owner[r.value := Live(size, size <= SLAB_LIMIT)] && Kept(m, m', owner - {r.value})
    requires r.None? ==> owner' == owner && Kept(m, m', owner)
    ensures var cells' := if r.Some? then cells[r.value := Cell(size, map[])] else cells;
            Tracks(owner', cells') && Holds(m', cells')
    ensures r.Some? ==> r.value !in cells
  {
    hide Kept, Holds;
    if r.Some? {
      StillHolds(m, m', owner, cells, cells[r.value := Cell(size, map[])], owner - {r.value});
    } else {
      StillHolds(m, m', owner, cells, cells, owner);
    }
  }

  lemma Deallocated(m: Mem, m': Mem, owner: Owners, owner': Owners, cells: Cells, p: nat)
    requires Tracks(owner, cells) && Holds(m, cells) && p in cells && Kept(m, m', owner - {p})
    requires owner' - {p} == owner - {p} && (p in owner' ==> owner'[p].Slot?)
    ensures Tracks(owner', cells - {p}) && Holds(m', cells - {p})
  {
    hide Kept, Holds;
    StillHolds(m, m', owner, cells, cells - {p}, owner - {p});
    forall q
      ensures q != p ==> (q in owner' <==> q in owner)
      ensures q != p && q in owner ==> owner'[q] == owner[q]
    {
      assert q in owner' - {p} <==> q in owner - {p};
      if q != p && q in owner { assert (owner' - {p})[q] == (owner - {p})[q]; }
    }
  }

  lemma Poked(m: Mem, owner: Owners, cells: Cells, lo: nat, hi: nat, p: nat, offset: nat, value: nat)
    requires Tracks(owner, cells) && Holds(m, cells) && Apart(cells, owner, lo, hi)
    requires p in cells && offset < cells[p].size
    ensures var cells' := cells[p := cells[p].(words := cells[p].words[offset := value])];
            Tracks(owner, cells') && Holds(m[p + offset := value], cells')
  {
    PokedTracks(owner, cells, p, offset, value);
    hide Tracks, Apart;
    var m', cells' := m[p + offset := value], cells[p := cells[p].(words := cells[p].words[offset := value])];
    forall q, i: nat | q in cells' && i in cells'[q].words
      ensures HeldAt(m', q, cells'[q], i)
    {
      hide Holds;
      PokedWord(m, owner, cells, lo, hi, p, offset, value, q, i);
    }
  }

  lemma PokedTracks(owner: Owners, cells: Cells, p: nat, offset: nat, value: nat)
    requires Tracks(owner, cells) && p in cells
    ensures Tracks(owner, cells[p := cells[p].(words := cells[p].words[offset := value])])
  {
  }

  lemma PokedWord(m: Mem, owner: Owners, cells: Cells, lo: nat, hi: nat, p: nat, offset: nat, value: nat, q: nat,
                  i: nat)
    requires Tracks(owner, cells) && Holds(m, cells) && Apart(cells, owner, lo, hi)
    requires p in cells && offset < cells[p].size && q in cells
    requires i in cells[q].words || (q == p && i == offset)
    ensures i < cells[q].size
    ensures At(m[p + offset := value], q + i) == if q == p && i == offset then value else cells[q].words[i]
  {
    hide Tracks, Apart;
    if q == p {
      assert i != offset ==> HeldAt(m, q, cells[q], i);
    } else {
      assert HeldAt(m, q, cells[q], i);
      NotTouching(cells, owner, lo, hi, p, offset, q, i);
    }
  }

  /** Words of two allocations are at different addresses. */
  lemma NotTouching(cells: Cells, owner: Owners, lo: nat, hi: nat, p: nat, i: nat, q: nat, j: nat)
    requires Tracks(owner, cells) && Apart(cells, owner, lo, hi) && p in cells && q in cells && p != q
    requires i < cells[p].size && j < cells[q].size
    ensures p + i != q + j
  {
    hide Need;
    assert Beside(cells, owner, p, q) && Beside(cells, owner, q, p);
    NeedCovers(cells[p].size);
    NeedCovers(cells[q].size);
  }

  /** When a request is served: from the class freelist, or from room in the first-fit heap with whatever
      pages it can map. */
  ghost predicate Serves(bs: seq<Block>, slabs: seq<seq<nat>>, pageSize: nat, size: nat, batchOk: bool, minOk: bool)
    requires |slabs| == CLASSES && 0 < pageSize
  {
    if size <= SLAB_LIMIT then
      && ClassOf(size).Some?
      && (slabs[ClassOf(size).value] != [] || RoomFor(bs, ClassSize(ClassOf(size).value), pageSize, batchOk, minOk))
    else size <= MAX_ALLOC && RoomFor(bs, RoundUp(size), pageSize, batchOk, minOk)
  }

  ghost predicate RoomFor(bs: seq<Block>, needed: nat, pageSize: nat, batchOk: bool, minOk: bool)
    requires 0 < pageSize
  {
    HasRun(bs, needed) || Growable(bs, needed, pageSize, batchOk, minOk)
  }

  /** One call, or nothing when it matches no allocation. */
  method Step(h: Heap, call: Call, ghost cells: Cells) returns (r: Option<nat>)
    requires h.Valid() && Tracks(h.owner, cells) && Holds(h.mem, cells) && Matched(cells, call)
    modifies h
    ensures h.Valid()
    ensures call.Alloc? && r.Some? ==> r.value !in cells && r.value != 0
    ensures call.Alloc? ==>
              (r.Some? <==> Serves(old(h.blocks), old(h.slabs), h.pageSize, call.size, call.batchOk, call.minOk))
    ensures Tracks(h.owner, After(cells, call, r)) && Holds(h.mem, After(cells, call, r))
  {
    hide Consistent, Kept, Need, Tracks, Holds, ClassOf, Serves;
    ghost var m, owner := h.mem, h.owner;
    match call
    case Alloc(size, batchOk, minOk) =>
      r := Allocate(h, size, batchOk, minOk);
      Allocated(m, h.mem, owner, h.owner, cells, size, r);
      if r.Some? {
        PointerFacts(h.mem, h.blocks, h.base, h.end, h.owner, h.heads, h.slabs, r.value);
      }
    case Dealloc(p, size) =>
      r := None;
      if p != 0 {
        Known(owner, cells, p);
        Deallocate(h, p, size);
        Deallocated(m, h.mem, owner, h.owner, cells, p);
      } else {
        NullUnused(h.mem, h.blocks, h.base, h.end, h.owner, h.heads, h.slabs, cells);
      }
    case Poke(p, offset, value) =>
      r := None;
      Known(owner, cells, p);
      AllApart(h.mem, h.blocks, h.base, h.end, h.owner, h.heads, h.slabs, cells);
      PokeConsistent(h.mem, h.blocks, h.base, h.end, h.owner, h.heads, h.slabs, p, p + offset, value);
      h.mem := h.mem[p + offset := value];
      Poked(m, owner, cells, h.base, h.end, p, offset, value);
  }

  /** `GlobalAlloc::alloc`. */
  method Allocate(h: Heap, size: nat, batchOk: bool, minOk: bool) returns (r: Option<nat>)
    requires h.Valid()
    modifies h
    ensures h.Valid()
    ensures r.Some? <==> Serves(old(h.blocks), old(h.slabs), h.pageSize, size, batchOk, minOk)
    ensures r.Some? ==>
              && (r.value in old(h.owner) ==> old(h.owner)[r.value].Slot?)
              && h.owner == old(h.owner)[r.value := Live(size, size <= SLAB_LIMIT)]
              && Kept(old(h.mem), h.mem, old(h.owner) - {r.value})
    ensures r.None? ==> h.owner == old(h.owner) && Kept(old(h.mem), h.mem, old(h.owner))
  {
    hide Consistent, Kept, HasRun, Growable, Need;
    if size <= SLAB_LIMIT {
      r := h.SlabAlloc(size, batchOk, minOk);
    } else {
      r := h.AllocBytes(size, false, batchOk, minOk);
      if r.Some? {
        KeptLess(old(h.mem), h.mem, old(h.owner), r.value);
      }
    }
  }

  /** `GlobalAlloc::dealloc` of a live allocation. */
  method Deallocate(h: Heap, p: nat, size: nat)
    requires h.Valid() && p in h.owner && h.owner[p] == Live(size, size <= SLAB_LIMIT)
    modifies h
    ensures h.Valid() && Kept(old(h.mem), h.mem, old(h.owner) - {p})
    ensures h.owner == if size <= SLAB_LIMIT then old(h.owner)[p := Slot(ClassOf(size).value)] else old(h.owner) - {p}
  {
    hide Consistent, Kept, Need;
    if size <= SLAB_LIMIT {
      h.SlabFree(p, size);
    } else {
      FreshPointer(h.mem, h.blocks, h.base, h.end, h.owner, h.heads, h.slabs, p);
      PointerFacts(h.mem, h.blocks, h.base, h.end, h.owner, h.heads, h.slabs, p);
      var r := h.FreeBytes(p);
    }
  }

  lemma PointerFacts(m: Mem, bs: seq<Block>, lo: nat, hi: nat, owner: Owners, heads: seq<nat>, slabs: seq<seq<nat>>,
                     p: nat)
    requires Consistent(m, bs, lo, hi, owner, heads, slabs) && p in owner
    ensures p != 0 && p % 16 == 0
  {
    hide Need, Tiled, Owned, Encoded, SlabsOk;
    OwnedBlock(bs, owner, p);
    var k: nat :| IsUsed(bs, k, p);
    OwnerInside(bs, lo, hi, owner, k, p);
  }

  lemma NullUnused(m: Mem, bs: seq<Block>, lo: nat, hi: nat, owner: Owners, heads: seq<nat>, slabs: seq<seq<nat>>,
                   cells: Cells)
    requires Consistent(m, bs, lo, hi, owner, heads, slabs) && Tracks(owner, cells)
    ensures cells - {0} == cells
  {
    hide Consistent;
    if 0 in cells {
      PointerFacts(m, bs, lo, hi, owner, heads, slabs, 0);
    }
  }

  /** Every run from the empty heap.  A pointer handed out is not one that is still in use, allocations
      never overlap each other or a free slot, and each still holds what its caller last stored. */
  method Run(h: Heap, calls: seq<Call>) returns (results: seq<Option<nat>>)
    requires h.Valid() && h.owner == map[]
    modifies h
    ensures h.Valid() && |results| == |calls|
    ensures var cells := Replay(calls, results);
            Tracks(h.owner, cells) && Holds(h.mem, cells) && Apart(cells, h.owner, h.base, h.end)
    ensures forall k :: 0 <= k < |calls| && calls[k].Alloc? && results[k].Some? ==>
              results[k].value !in Replay(calls[..k], results[..k])
  {
    hide Consistent, Tracks, Holds, Apart, Replay, Matched, After;
    results := [];
    var cells: Cells := map[];
    EmptyTracks(h.mem);
    for k := 0 to |calls|
      invariant h.Valid() && |results| == k && Tracks(h.owner, cells) && Holds(h.mem, cells)
      invariant cells == Replay(calls[..k], results)
      invariant NewPointers(calls, results)
    {
      var r := None;
      ghost var before := cells;
      if Matched(cells, calls[k]) {
        r := Step(h, calls[k], cells);
        cells := After(cells, calls[k], r);
      }
      ReplaySnoc(calls, results, k, r);
      NewSnoc(calls, results, k, r, before);
      results := results + [r];
    }
    assert calls[..|calls|] == calls;
    AllApart(h.mem, h.blocks, h.base, h.end, h.owner, h.heads, h.slabs, cells);
  }

  lemma EmptyTracks(m: Mem)
    ensures Tracks(map[], map[]) && Holds(m, map[]) && Replay([], []) == map[]
  {
  }

  ghost predicate NewPointers(calls: seq<Call>, results: seq<Option<nat>>) {
    && |results| <= |calls|
    && forall k :: 0 <= k < |results| && calls[k].Alloc? && results[k].Some? ==>
                   results[k].value !in Replay(calls[..k], results[..k])
  }

  lemma ReplaySnoc(calls: seq<Call>, results: seq<Option<nat>>, k: nat, r: Option<nat>)
    requires k < |calls| && |results| == k
    ensures var cells := Replay(calls[..k], results);
            Replay(calls[..k + 1], results + [r]) ==
            if Matched(cells, calls[k]) then After(cells, calls[k], r) else cells
  {
    assert calls[..k + 1][..k] == calls[..k] && (results + [r])[..k] == results;
  }

  lemma NewSnoc(calls: seq<Call>, results: seq<Option<nat>>, k: nat, r: Option<nat>, cells: Cells)
    requires k < |calls| && |results| == k && NewPointers(calls, results) && cells == Replay(calls[..k], results)
    requires calls[k].Alloc? && r.Some? ==> r.value !in cells
    ensures NewPointers(calls, results + [r])
  {
    hide Replay;
    var all := results + [r];
    forall j | 0 <= j < |all| && calls[j].Alloc? && all[j].Some?
      ensures all[j].value !in Replay(calls[..j], all[..j])
    {
      if j < k {
        assert all[..j] == results[..j] && all[j] == results[j];
      } else {
        assert all[..j] == results;
      }
    }
  }
}
