/** The kernel heap: first-fit allocation with lazy coalescing and growth, and the slab layer in front
    of it.
 */
module KernelHeap {
  import opened Options
  import opened HeapBlocks
  import opened HeapMemory

  datatype FreeResult = Freed | OutOfRange | DoubleFree | Corrupt

  function WordAt(m: Mem, p: nat, j: nat): nat {
    At(m, p + 8 * j)
  }

  // ---------------------------------------------------------------------------
  // The heap
  // ---------------------------------------------------------------------------

  class Heap {
    const base: nat
    const pageSize: nat
    var mem: Mem
    var head: nat
    var end: nat
    var heads: seq<nat>
    ghost var blocks: seq<Block>
    ghost var owner: Owners
    ghost var slabs: seq<seq<nat>>

    ghost predicate Valid()
      reads this
    {
      && 0 < pageSize && pageSize % 4096 == 0
      && head == (if blocks == [] then 0 else base)
      && Consistent(mem, blocks, base, end, owner, heads, slabs)
    }

    /** Loads and stores of the allocator stay inside the mapped range. */
    function Load(a: nat): nat
      requires base <= a < end && a % 8 == 0
      reads this
    {
      At(mem, a)
    }

    method Store(a: nat, v: nat)
      requires base <= a < end && a % 8 == 0
      modifies this`mem
      ensures mem == old(mem)[a := v]
    {
      mem := mem[a := v];
    }

    method StoreFreeHeader(a: nat, size: nat, next: nat)
      requires base <= a && a + HEADER <= end && a % 16 == 0
      modifies this`mem
      ensures mem == old(mem)[a := MAGIC_FREE][a + 8 := size][a + 16 := next]
    {
      HeaderWords(a);
      Store(a, MAGIC_FREE);
      Store(a + 8, size);
      Store(a + 16, next);
    }

    constructor (base: nat, pageSize: nat, ram: Mem)
      requires 0 < base && 0 < pageSize && base % pageSize == 0 && pageSize % 4096 == 0
      ensures Valid() && blocks == [] && owner == map[] && end == base
      ensures this.base == base && this.pageSize == pageSize
    {
      this.base, this.pageSize, mem, head, end := base, pageSize, ram, 0, base;
      heads := seq(CLASSES, _ => 0);
      blocks, owner, slabs := [], map[], seq(CLASSES, _ => []);
      Aligned(base, pageSize);
    }

    /** Split block `k` if the remainder is worth a header, and mark it used. */
    method MarkUsed(current: nat, needed: nat, ghost k: nat, ghost o: Owner)
      requires Valid() && needed % 16 == 0 && 16 <= needed && Need(o) <= needed && o.Live?
      requires k < |blocks| && Fits(blocks[k], needed) && current == blocks[k].start
      modifies this`mem, this`blocks, this`owner
      ensures Valid() && Kept(old(mem), mem, old(owner))
      ensures blocks == Carve(old(blocks), k, needed)
      ensures current + HEADER !in old(owner) && owner == old(owner)[current + HEADER := o]
    {
      hide Consistent, Carve, Need, Kept, Carved, NextOf;
      Visit(mem, blocks, base, end, owner, heads, slabs, k);
      CarveConsistent(mem, blocks, base, end, owner, heads, slabs, k, needed, o);
      CarvedIs(mem, blocks[k], needed);
      HeaderWords(current);
      RestWords(current, needed);
      HeaderWords(current + HEADER + needed);
      hide Fine;
      var size, next := Load(current + 8), Load(current + 16);
      if needed + HEADER + MIN_BLOCK <= size {
        var rest := current + HEADER + needed;
        StoreFreeHeader(rest, size - needed - HEADER, next);
        Store(current + 16, rest);
        Store(current + 8, needed);
      }
      Store(current, MAGIC_USED);
      owner := owner[current + HEADER := o];
      blocks := Carve(blocks, k, needed);
    }

    /** First fit: carve the request out of the first free block that holds it. */
    method FindFreeBlock(needed: nat, ghost o: Owner) returns (r: Option<nat>, ghost k: nat)
      requires Valid() && needed % 16 == 0 && 16 <= needed && Need(o) <= needed && o.Live?
      modifies this`mem, this`blocks, this`owner
      ensures Valid() && Kept(old(mem), mem, old(owner))
      ensures r.None? ==> mem == old(mem) && blocks == old(blocks) && owner == old(owner) && NoFit(blocks, needed)
      ensures r.Some? ==>
                && k < |old(blocks)| && Fits(old(blocks)[k], needed) && NoFit(old(blocks)[..k], needed)
                && blocks == Carve(old(blocks), k, needed)
                && r.value == old(blocks)[k].Payload() && r.value !in old(owner) && owner == old(owner)[r.value := o]
    {
      hide Consistent, Carve, Need, Kept;
      var current := head;
      k := 0;
      StartOf(mem, blocks, base, end, owner, heads, slabs);
      while current != 0
        invariant mem == old(mem) && blocks == old(blocks) && owner == old(owner)
        invariant k <= |blocks| && current == Cursor(blocks, k) && NoFit(blocks[..k], needed)
        decreases |blocks| - k
      {
        Visit(mem, blocks, base, end, owner, heads, slabs, k);
        HeaderWords(current);
        if Load(current) == MAGIC_FREE && needed <= Load(current + 8) {
          MarkUsed(current, needed, k, o);
          return Some(current + HEADER), k;
        }
        NoFitSnoc(blocks, k, needed);
        current := Load(current + 16);
        k := k + 1;
      }
      AtEnd(mem, blocks, base, end, owner, heads, slabs, k);
      KeptRefl(mem, owner);
      return None, k;
    }

    /** Join free block `k` with its free successor. */
    method GlueNext(current: nat, ghost k: nat)
      requires Valid() && k + 1 < |blocks| && !blocks[k].used && !blocks[k + 1].used && current == blocks[k].start
      modifies this`mem, this`blocks
      ensures Valid() && Kept(old(mem), mem, owner) && blocks == GlueAt(old(blocks), k)
    {
      hide Consistent, GlueAt, Need, Kept;
      Visit(mem, blocks, base, end, owner, heads, slabs, k);
      Visit(mem, blocks, base, end, owner, heads, slabs, k + 1);
      HeaderWords(current);
      HeaderWords(blocks[k + 1].start);
      GlueConsistent(mem, blocks, base, end, owner, heads, slabs, k);
      var next := Load(current + 16);
      var size, after := Load(next + 8), Load(next + 16);
      Store(current + 8, Load(current + 8) + HEADER + size);
      Store(current + 16, after);
      blocks := GlueAt(blocks, k);
    }

    /** Join every pair of free neighbours in one pass. */
    method Coalesce()
      requires Valid()
      modifies this`mem, this`blocks
      ensures Valid() && Kept(old(mem), mem, owner) && blocks == Merge(old(blocks))
    {
      hide Consistent, GlueAt, Need, Kept, Merge;
      var current := head;
      ghost var k := 0;
      StartOf(mem, blocks, base, end, owner, heads, slabs);
      KeptRefl(mem, owner);
      assert blocks[..0] + Merge(blocks[0..]) == Merge(blocks) by { assert blocks[0..] == blocks; }
      while current != 0
        invariant Valid() && Kept(old(mem), mem, owner)
        invariant k <= |blocks| && current == Cursor(blocks, k)
        invariant blocks[..k] + Merge(blocks[k..]) == Merge(old(blocks))
        decreases 2 * |blocks| - k
      {
        ghost var m, bs := mem, blocks;
        Visit(mem, blocks, base, end, owner, heads, slabs, k);
        HeaderWords(current);
        var next := Load(current + 16);
        if Load(current) == MAGIC_FREE && next != 0 {
          Visit(mem, blocks, base, end, owner, heads, slabs, k + 1);
          HeaderWords(next);
          if Load(next) == MAGIC_FREE {
            GlueNext(current, k);
            KeptTrans(old(mem), m, mem, owner);
            MergeGlue(bs, k);
            continue;
          }
        }
        MergeSkip(blocks, k);
        current := next;
        k := k + 1;
      }
      AtEnd(mem, blocks, base, end, owner, heads, slabs, k);
      MergeNone(blocks, k);
    }

    /** The last block of a non-empty list. */
    method FindTail() returns (tail: nat)
      requires Valid() && blocks != []
      ensures tail == blocks[|blocks| - 1].start
    {
      hide Consistent, Need;
      tail := head;
      ghost var k := 0;
      StartOf(mem, blocks, base, end, owner, heads, slabs);
      Visit(mem, blocks, base, end, owner, heads, slabs, 0);
      HeaderWords(tail);
      while Load(tail + 16) != 0
        invariant k < |blocks| && tail == blocks[k].start && base <= tail && tail + HEADER <= end
        invariant (tail + 16) % 8 == 0
        invariant Load(tail + 16) == Cursor(blocks, k + 1)
        decreases |blocks| - k
      {
        k := k + 1;
        tail := Load(tail + 16);
        Visit(mem, blocks, base, end, owner, heads, slabs, k);
        HeaderWords(tail);
      }
      AtEnd(mem, blocks, base, end, owner, heads, slabs, k + 1);
    }

    /** Wire `pageCount` freshly mapped pages into the list. */
    method RegisterGrownPages(pageCount: nat)
      requires Valid() && 0 < pageCount
      modifies this`mem, this`blocks, this`head, this`end
      ensures Valid() && Kept(old(mem), mem, owner)
      ensures blocks == Grow(old(blocks), old(end), pageCount * pageSize) && end == old(end) + pageCount * pageSize
    {
      GrowthBytes(pageCount, pageSize);
      Append(pageCount * pageSize);
    }

    method Append(bytes: nat)
      requires Valid() && bytes % 16 == 0 && HEADER + 16 <= bytes
      modifies this`mem, this`blocks, this`head, this`end
      ensures Valid() && Kept(old(mem), mem, owner)
      ensures blocks == Grow(old(blocks), old(end), bytes) && end == old(end) + bytes
    {
      hide Consistent, Need, Kept, GrownMem, Grow;
      ghost var bs, m := blocks, mem;
      var block := end;
      GrowConsistent(mem, blocks, base, end, owner, heads, slabs, bytes);
      TailIs(mem, blocks, base, end, owner, heads, slabs, bytes);
      HeaderWords(block);
      if head == 0 {
        end := end + bytes;
        StoreFreeHeader(block, bytes - HEADER, 0);
        head := block;
      } else {
        Visit(mem, blocks, base, end, owner, heads, slabs, |blocks| - 1);
        HeaderWords(bs[|bs| - 1].start);
        hide Fine, NextOf;
        var tail := FindTail();
        var size := Load(tail + 8);
        var joins := Load(tail) == MAGIC_FREE && tail + HEADER + size == block;
        end := end + bytes;
        StoreFreeHeader(block, bytes - HEADER, 0);
        if joins {
          Store(tail + 8, size + HEADER + (bytes - HEADER));
        } else {
          Store(tail + 16, block);
        }
      }
      blocks := Grow(bs, block, bytes);
    }

    /** Grow by a batch of pages, or by the minimum when the batch cannot be mapped.  Whether the two
        mapping attempts succeed is up to the physical allocator. */
    method GrowForSize(needed: nat, batchOk: bool, minOk: bool) returns (ok: bool)
      requires Valid()
      modifies this`mem, this`blocks, this`head, this`end
      ensures Valid() && Kept(old(mem), mem, owner)
      ensures ok <==> 0 < GrownPages(needed, pageSize, batchOk, minOk)
      ensures ok ==> blocks == Grow(old(blocks), old(end), GrownPages(needed, pageSize, batchOk, minOk) * pageSize)
      ensures end == old(end) + Gained(needed, pageSize, batchOk, minOk)
    {
      hide Consistent, Kept, Grow, Gained;
      GainedIs(needed, pageSize, batchOk, minOk);
      var pages := PagesFor(needed, pageSize);
      var batch := Max(pages, GROWTH_PAGES);
      if batchOk {
        RegisterGrownPages(batch);
        return true;
      }
      if pages < batch && minOk {
        RegisterGrownPages(pages);
        return true;
      }
      KeptRefl(mem, owner);
      return false;
    }

    /** First fit, then coalesce and retry, then grow and retry. */
    method FirstFit(needed: nat, mayGrow: bool, batchOk: bool, minOk: bool, ghost o: Owner) returns (r: Option<nat>)
      requires Valid() && needed % 16 == 0 && 16 <= needed && Need(o) <= needed && o.Live?
      modifies this`mem, this`blocks, this`owner, this`head, this`end
      ensures Valid() && Kept(old(mem), mem, old(owner))
      ensures r.Some? <==>
                HasRun(old(blocks), needed) || (mayGrow && Growable(old(blocks), needed, pageSize, batchOk, minOk))
      ensures r.Some? ==> r.value !in old(owner) && owner == old(owner)[r.value := o]
      ensures r.None? ==> owner == old(owner)
    {
      hide Consistent, Kept, Grow, Merge, Carve, Need, HasRun, NoFit, TailFree, GrownPages, Growable;
      GrowthServes(blocks, needed, pageSize, batchOk, minOk);
      ghost var k;
      r, k := FindFreeBlock(needed, o);
      if r.Some? {
        FitHasRun(old(blocks), k, needed);
        return;
      }
      ghost var bytes := GrownPages(needed, pageSize, batchOk, minOk) * pageSize;
      MergedRoom(mem, blocks, base, end, owner, heads, slabs, needed);
      Coalesce();
      ghost var m1, bs1 := mem, blocks;
      r, k := FindFreeBlock(needed, o);
      KeptTrans(old(mem), m1, mem, old(owner));
      if r.Some? {
        FitExists(bs1, k, needed);
        return;
      }
      if !mayGrow {
        return None;
      }
      GrownRoom(old(blocks), bs1, end, needed, pageSize, batchOk, minOk);
      var ok := GrowForSize(needed, batchOk, minOk);
      ghost var m2, bs2 := mem, blocks;
      KeptTrans(old(mem), m1, mem, old(owner));
      if !ok {
        return None;
      }
      r, k := FindFreeBlock(needed, o);
      KeptTrans(old(mem), m2, mem, old(owner));
      if r.Some? {
        FitExists(bs2, k, needed);
      }
    }

    /** `alloc_bytes`.  In an atomic context it fails exactly when the size is illegal or no run of
        adjacent free blocks, counting the headers between them, holds the rounded size. */
    method AllocBytes(size: nat, atomic: bool, batchOk: bool, minOk: bool) returns (r: Option<nat>)
      requires Valid()
      modifies this`mem, this`blocks, this`owner, this`head, this`end
      ensures Valid() && Kept(old(mem), mem, old(owner))
      ensures r.Some? <==>
                && 0 < size <= MAX_ALLOC
                && (HasRun(old(blocks), RoundUp(size)) ||
                    (!atomic && Growable(old(blocks), RoundUp(size), pageSize, batchOk, minOk)))
      ensures r.Some? ==> r.value !in old(owner) && owner == old(owner)[r.value := Live(size, false)]
      ensures r.None? ==> owner == old(owner)
    {
      hide Consistent, Kept, HasRun, Growable, ClassOf;
      if size == 0 || MAX_ALLOC < size {
        KeptRefl(mem, owner);
        return None;
      }
      Rounded(size);
      hide RoundUp;
      r := FirstFit(RoundUp(size), !atomic, batchOk, minOk, Live(size, false));
    }

    /** Fill the `n` words at `p` with the poison byte. */
    method Poison(p: nat, n: nat)
      requires base <= p && p + 8 * n <= end && p % 8 == 0
      modifies this`mem
      ensures Confined(old(mem), mem, p, p + 8 * n)
      ensures forall j :: 0 <= j < n ==> WordAt(mem, p, j) == POISON
    {
      for i := 0 to n
        invariant Confined(old(mem), mem, p, p + 8 * n)
        invariant forall j :: 0 <= j < i ==> WordAt(mem, p, j) == POISON
      {
        ghost var before := mem;
        Store(p + 8 * i, POISON);
        forall j | 0 <= j < i
          ensures WordAt(mem, p, j) == WordAt(before, p, j)
        {
        }
      }
    }

    /** `free_bytes`.  Out-of-range pointers, blocks already free and foreign magics are refused; a used
        block is poisoned and marked free. */
    method FreeBytes(p: nat) returns (r: FreeResult)
      requires Valid() && p % 16 == 0
      requires base + HEADER <= p < end && At(mem, p - HEADER) == MAGIC_USED ==> p in owner && owner[p].Live?
      requires p in owner ==> owner[p].Live?
      modifies this`mem, this`blocks, this`owner
      ensures Valid() && Kept(old(mem), mem, old(owner) - {p})
      ensures r == Freed <==> p in old(owner)
      ensures r == Freed ==> owner == old(owner) - {p}
      ensures r == Freed ==> forall j :: 0 <= j < old(At(mem, p - HEADER + 8)) / 8 ==> WordAt(mem, p, j) == POISON
      ensures r != Freed ==> mem == old(mem) && blocks == old(blocks) && owner == old(owner)
      ensures r == OutOfRange <==> !(base + HEADER <= p < end)
      ensures base + HEADER <= p < end ==> (r == DoubleFree <==> old(At(mem, p - HEADER)) == MAGIC_FREE)
    {
      hide Consistent, Kept, Need;
      FreshPointer(mem, blocks, base, end, owner, heads, slabs, p);
      KeptRefl(mem, owner - {p});
      if p < base + HEADER || end <= p {
        return OutOfRange;
      }
      HeaderBefore(p);
      var magic := Load(p - HEADER);
      if magic == MAGIC_FREE {
        return DoubleFree;
      } else if magic != MAGIC_USED {
        return Corrupt;
      }
      ghost var k: nat :| IsUsed(blocks, k, p);
      ghost var m := mem;
      Visit(mem, blocks, base, end, owner, heads, slabs, k);
      var size := Load(p - HEADER + 8);
      WholeWords(size);
      Poison(p, size / 8);
      FreeConsistent(m, mem, blocks, base, end, owner, heads, slabs, k, p);
      ghost var poisoned := mem;
      Store(p - HEADER, MAGIC_FREE);
      assert forall j :: 0 <= j < size / 8 ==> WordAt(mem, p, j) == WordAt(poisoned, p, j);
      blocks, owner := FreeAt(blocks, k), owner - {p};
      return Freed;
    }

    /** The slab class of a request: the loop over the class table. */
    method ClassFor(size: nat) returns (c: Option<nat>)
      ensures c == ClassOf(size)
    {
      for i := 0 to CLASSES
        invariant ClassOf(size) == ClassFrom(size, i)
      {
        if size <= ClassSize(i) {
          return Some(i);
        }
      }
      return None;
    }

    /** `slab_alloc`: pop the class freelist, or take a fresh slot from the first-fit heap. */
    method SlabAlloc(size: nat, batchOk: bool, minOk: bool) returns (r: Option<nat>)
      requires Valid()
      modifies this
      ensures Valid()
      ensures r.Some? <==>
                && ClassOf(size).Some?
                && (old(slabs)[ClassOf(size).value] != [] ||
                    HasRun(old(blocks), ClassSize(ClassOf(size).value)) ||
                    Growable(old(blocks), ClassSize(ClassOf(size).value), pageSize, batchOk, minOk))
      ensures r.Some? ==>
                && (r.value in old(owner) ==> old(owner)[r.value].Slot?)
                && owner == old(owner)[r.value := Live(size, true)]
                && Kept(old(mem), mem, old(owner) - {r.value})
      ensures r.None? ==> owner == old(owner) && Kept(old(mem), mem, old(owner))
    {
      hide Consistent, Kept, HasRun, Growable;
      SlabCount(mem, blocks, base, end, owner, heads, slabs);
      var c := ClassFor(size);
      if c.None? {
        KeptRefl(mem, owner);
        return None;
      }
      ClassAligned(c.value);
      var p := heads[c.value];
      if p != 0 {
        PopConsistent(mem, blocks, base, end, owner, heads, slabs, c.value, size);
        HeaderWords(p);
        heads := heads[c.value := Load(p)];
        slabs := slabs[c.value := slabs[c.value][1..]];
        owner := owner[p := Live(size, true)];
        Store(p, 0);
        return Some(p);
      }
      EmptySlab(mem, blocks, base, end, owner, heads, slabs, c.value);
      r := FirstFit(ClassSize(c.value), true, batchOk, minOk, Live(size, true));
      if r.Some? {
        KeptLess(old(mem), mem, old(owner), r.value);
      }
    }

    /** `slab_free`: poison the slot and push it on its class freelist. */
    method SlabFree(p: nat, size: nat)
      requires Valid() && p in owner && owner[p] == Live(size, true)
      modifies this
      ensures Valid() && Kept(old(mem), mem, old(owner) - {p})
      ensures ClassOf(size).Some? ==> owner == old(owner)[p := Slot(ClassOf(size).value)]
      ensures ClassOf(size).None? ==> owner == old(owner)
      ensures ClassOf(size).Some? ==>
                forall j :: 1 <= j < ClassSize(ClassOf(size).value) / 8 ==> WordAt(mem, p, j) == POISON
    {
      hide Consistent, Kept;
      SlabCount(mem, blocks, base, end, owner, heads, slabs);
      var c := ClassFor(size);
      if c.None? {
        KeptRefl(mem, owner - {p});
        return;
      }
      ClassAligned(c.value);
      ghost var m := mem;
      SlotInside(mem, blocks, base, end, owner, heads, slabs, p);
      Poison(p, ClassSize(c.value) / 8);
      PushConsistent(m, mem, blocks, base, end, owner, heads, slabs, c.value, p, size);
      Store(p, heads[c.value]);
      heads := heads[c.value := p];
      slabs := slabs[c.value := [p] + slabs[c.value]];
      owner := owner[p := Slot(c.value)];
    }
  }
}
