/** The kernel heap's words: block headers and slab freelists threaded through raw memory, who owns
    each used block, and what the heap's stores do to all of it.
 */
module HeapMemory {
  import opened Options
  import opened HeapBlocks

  // ---------------------------------------------------------------------------
  // Raw memory
  // ---------------------------------------------------------------------------

  /** 64-bit words by address.  What was never stored is arbitrary but fixed. */
  type Mem = map<nat, nat>

  function At(m: Mem, a: nat): nat {
    if a in m then m[a] else 0
  }

  const MAGIC_FREE: nat := 0xDEAD_BEEF_FEED_F4EE
  const MAGIC_USED: nat := 0xCAFE_BABE_ABCD_1234
  const POISON: nat := 0xCCCC_CCCC_CCCC_CCCC

  const MIN_ALIGN: nat := 16
  const MAX_ALLOC: nat := 0x200_0000
  const GROWTH_PAGES: nat := 8

  function Magic(used: bool): nat {
    if used then MAGIC_USED else MAGIC_FREE
  }

  function RoundUp(size: nat): nat {
    (size + (MIN_ALIGN - 1)) / MIN_ALIGN * MIN_ALIGN
  }

  /** Only words in [lo, hi) changed. */
  ghost predicate Confined(m: Mem, m': Mem, lo: nat, hi: nat) {
    forall a: nat :: At(m', a) != At(m, a) ==> lo <= a < hi
  }

  // ---------------------------------------------------------------------------
  // The block list in memory
  // ---------------------------------------------------------------------------

  function NextOf(bs: seq<Block>, k: nat): nat {
    if k + 1 < |bs| then bs[k + 1].start else 0
  }

  ghost predicate HeaderOk(m: Mem, bs: seq<Block>, k: nat)
    requires k < |bs|
  {
    && At(m, bs[k].start) == Magic(bs[k].used)
    && At(m, bs[k].start + 8) == bs[k].size
    && At(m, bs[k].start + 16) == NextOf(bs, k)
  }

  ghost predicate Encoded(m: Mem, bs: seq<Block>) {
    forall k :: 0 <= k < |bs| ==> HeaderOk(m, bs, k)
  }

  /** Payload words of used blocks are as they were. */
  ghost predicate PayloadsKept(m: Mem, m': Mem, bs: seq<Block>) {
    forall k, a :: 0 <= k < |bs| && bs[k].used && bs[k].Payload() <= a < bs[k].End() ==> At(m', a) == At(m, a)
  }

  /** A store inside free block `k`, or in its header, leaves other headers and used payloads alone. */
  lemma ConfinedToFree(m: Mem, m': Mem, bs: seq<Block>, lo: nat, hi: nat, k: nat)
    requires Tiled(bs, lo, hi) && k < |bs| && !bs[k].used && Encoded(m, bs)
    requires Confined(m, m', bs[k].start, bs[k].End())
    ensures forall j :: 0 <= j < |bs| && j != k ==> HeaderOk(m', bs, j)
    ensures PayloadsKept(m, m', bs)
  {
    forall j | 0 <= j < |bs| && j != k
      ensures HeaderOk(m', bs, j)
    {
      assert HeaderOk(m, bs, j);
      Apart(bs, lo, hi, j, k);
    }
    forall j, a | 0 <= j < |bs| && bs[j].used && bs[j].Payload() <= a < bs[j].End()
      ensures At(m', a) == At(m, a)
    {
      Apart(bs, lo, hi, j, k);
    }
  }

  // ---------------------------------------------------------------------------
  // Carving
  // ---------------------------------------------------------------------------

  /** The words `find_free_block` stores for block `k`. */
  function Carved(m: Mem, b: Block, needed: nat): Mem
    requires needed <= b.size
  {
    var rest := b.start + HEADER + needed;
    if needed + HEADER + MIN_BLOCK <= b.size
    then m[rest := MAGIC_FREE][rest + 8 := b.size - needed - HEADER][rest + 16 := At(m, b.start + 16)]
           [b.start + 16 := rest][b.start + 8 := needed][b.start := MAGIC_USED]
    else m[b.start := MAGIC_USED]
  }

  lemma CarvedConfined(m: Mem, b: Block, needed: nat)
    requires needed <= b.size
    ensures Confined(m, Carved(m, b, needed), b.start, b.End())
  {
  }

  /** Where the blocks of the carved list come from. */
  lemma CarveIndex(bs: seq<Block>, k: nat, needed: nat, j: nat)
    requires k < |bs| && needed <= bs[k].size && j < |Carve(bs, k, needed)|
    ensures var bs' := Carve(bs, k, needed);
            var d := |Split(bs[k], needed)|;
            && |bs'| == |bs| + d - 1 && 1 <= d <= 2
            && (j < k ==> bs'[j] == bs[j] && NextOf(bs', j) == NextOf(bs, j))
            && (k <= j < k + d ==> bs'[j] == Split(bs[k], needed)[j - k])
            && (k + d <= j ==> bs'[j] == bs[j - d + 1] && NextOf(bs', j) == NextOf(bs, j - d + 1))
            && (k + d - 1 == j ==> NextOf(bs', j) == NextOf(bs, k))
  {
  }

  lemma CarvedEncoded(m: Mem, bs: seq<Block>, lo: nat, hi: nat, k: nat, needed: nat)
    requires Tiled(bs, lo, hi) && Encoded(m, bs) && k < |bs| && Fits(bs[k], needed)
    ensures Encoded(Carved(m, bs[k], needed), Carve(bs, k, needed))
    ensures PayloadsKept(m, Carved(m, bs[k], needed), bs)
  {
    hide Tiled, PayloadsKept, NextOf, Confined, Carve;
    var m', bs' := Carved(m, bs[k], needed), Carve(bs, k, needed);
    CarvedConfined(m, bs[k], needed);
    ConfinedToFree(m, m', bs, lo, hi, k);
    assert HeaderOk(m, bs, k);
    var d := |Split(bs[k], needed)|;
    forall j | 0 <= j < |bs'|
      ensures HeaderOk(m', bs', j)
    {
      CarveIndex(bs, k, needed, j);
      if j < k {
        assert HeaderOk(m', bs, j);
      } else if k + d <= j {
        assert HeaderOk(m', bs, j - d + 1);
      } else {
        CarvedHere(m, bs, k, needed, j);
      }
    }
  }

  lemma CarvedHere(m: Mem, bs: seq<Block>, k: nat, needed: nat, j: nat)
    requires k < |bs| && needed <= bs[k].size && k <= j < k + |Split(bs[k], needed)|
    requires HeaderOk(m, bs, k) && j < |Carve(bs, k, needed)|
    ensures HeaderOk(Carved(m, bs[k], needed), Carve(bs, k, needed), j)
  {
    CarveIndex(bs, k, needed, j);
  }

  // ---------------------------------------------------------------------------
  // Coalescing
  // ---------------------------------------------------------------------------

  function GlueAt(bs: seq<Block>, k: nat): seq<Block>
    requires k + 1 < |bs|
  {
    bs[..k] + [Glue(bs[k], bs[k + 1])] + bs[k + 2..]
  }

  lemma GlueAtTiled(bs: seq<Block>, lo: nat, hi: nat, k: nat)
    requires Tiled(bs, lo, hi) && k + 1 < |bs|
    ensures Tiled(GlueAt(bs, k), lo, hi)
  {
    TiledCut(bs, lo, hi, k);
    GlueTiled(bs[k..], Bound(bs, lo, k), hi);
    assert bs[k..][2..] == bs[k + 2..];
    TiledConcat(bs[..k], [Glue(bs[k], bs[k + 1])] + bs[k + 2..], lo, Bound(bs, lo, k), hi);
    assert bs[..k] + ([Glue(bs[k], bs[k + 1])] + bs[k + 2..]) == GlueAt(bs, k);
  }

  function Glued(m: Mem, a: Block, b: Block): Mem {
    m[a.start + 8 := a.size + HEADER + b.size][a.start + 16 := At(m, b.start + 16)]
  }

  lemma GluedEncoded(m: Mem, bs: seq<Block>, lo: nat, hi: nat, k: nat)
    requires Tiled(bs, lo, hi) && Encoded(m, bs) && k + 1 < |bs| && !bs[k].used && !bs[k + 1].used
    ensures Encoded(Glued(m, bs[k], bs[k + 1]), GlueAt(bs, k))
    ensures PayloadsKept(m, Glued(m, bs[k], bs[k + 1]), bs)
  {
    var m', bs' := Glued(m, bs[k], bs[k + 1]), GlueAt(bs, k);
    ConfinedToFree(m, m', bs, lo, hi, k);
    assert HeaderOk(m, bs, k) && HeaderOk(m, bs, k + 1);
    forall j | 0 <= j < |bs'|
      ensures HeaderOk(m', bs', j)
    {
      if j < k {
        assert HeaderOk(m', bs, j);
      } else if k < j {
        assert bs'[j] == bs[j + 1] && HeaderOk(m', bs, j + 1);
      }
    }
  }

  /** Two lists with the same used blocks. */
  ghost predicate SameUsed(bs: seq<Block>, bs': seq<Block>) {
    forall b: Block :: b in bs' && b.used <==> b in bs && b.used
  }

  lemma GlueAtUsed(bs: seq<Block>, k: nat)
    requires k + 1 < |bs| && !bs[k].used && !bs[k + 1].used
    ensures SameUsed(bs, GlueAt(bs, k))
  {
    assert bs == bs[..k] + [bs[k], bs[k + 1]] + bs[k + 2..];
  }

  // ---------------------------------------------------------------------------
  // Growing
  // ---------------------------------------------------------------------------

  /** The words `register_grown_pages` stores. */
  function GrownMem(m: Mem, bs: seq<Block>, hi: nat, bytes: nat): Mem
    requires HEADER <= bytes
  {
    var m1 := m[hi := MAGIC_FREE][hi + 8 := bytes - HEADER][hi + 16 := 0];
    if bs == [] then m1
    else
      var tail := bs[|bs| - 1];
      if tail.used then m1[tail.start + 16 := hi] else m1[tail.start + 8 := tail.size + bytes]
  }

  lemma GrownEncoded(m: Mem, bs: seq<Block>, lo: nat, hi: nat, bytes: nat)
    requires Tiled(bs, lo, hi) && Encoded(m, bs) && HEADER <= bytes
    ensures Encoded(GrownMem(m, bs, hi, bytes), Grow(bs, hi, bytes))
    ensures PayloadsKept(m, GrownMem(m, bs, hi, bytes), bs)
  {
    var m', bs' := GrownMem(m, bs, hi, bytes), Grow(bs, hi, bytes);
    var n := |bs| - 1;
    forall j | 0 <= j < |bs'|
      ensures HeaderOk(m', bs', j)
    {
      if j <= n {
        assert HeaderOk(m, bs, j);
        Inside(bs, lo, hi, j);
        if j < n { Apart(bs, lo, hi, j, n); }
      } else if 0 <= n {
        Inside(bs, lo, hi, n);
      }
    }
    forall j, a | 0 <= j < |bs| && bs[j].used && bs[j].Payload() <= a < bs[j].End()
      ensures At(m', a) == At(m, a)
    {
      Inside(bs, lo, hi, j);
      if j < n { Apart(bs, lo, hi, j, n); }
    }
  }

  // ---------------------------------------------------------------------------
  // Who owns the used blocks
  // ---------------------------------------------------------------------------

  const CLASSES: nat := 9

  function ClassSize(i: nat): nat {
    if i < CLASSES then [16, 32, 64, 128, 256, 512, 1024, 2048, 4096][i] else 0
  }

  /** The first class at or after `i` that holds `size` bytes. */
  function ClassFrom(size: nat, i: nat): (r: Option<nat>)
    requires i <= CLASSES
    ensures r.Some? <==> i < CLASSES && size <= 4096
    ensures r.Some? ==> i <= r.value < CLASSES && size <= ClassSize(r.value)
    ensures r.Some? ==> forall j :: i <= j < r.value ==> ClassSize(j) < size
    decreases CLASSES - i
  {
    if i == CLASSES then None else if size <= ClassSize(i) then Some(i) else ClassFrom(size, i + 1)
  }

  function ClassOf(size: nat): Option<nat> {
    ClassFrom(size, 0)
  }

  /** A used block belongs to a caller who asked for `size` bytes, through the slab layer or not, or it
      sits on the freelist of a class. */
  datatype Owner = Live(size: nat, slab: bool) | Slot(index: nat)

  type Owners = map<nat, Owner>

  /** The bytes the owner may touch. */
  function Need(o: Owner): nat {
    match o
    case Live(size, slab) => if slab && ClassOf(size).Some? then ClassSize(ClassOf(size).value) else size
    case Slot(c) => ClassSize(c)
  }

  ghost predicate IsUsed(bs: seq<Block>, k: nat, p: nat) {
    k < |bs| && bs[k].used && bs[k].Payload() == p
  }

  ghost predicate UsedAt(bs: seq<Block>, p: nat) {
    exists k: nat :: IsUsed(bs, k, p)
  }

  /** The payloads of used blocks are exactly the owned addresses, each big enough for its owner. */
  ghost predicate Owned(bs: seq<Block>, owner: Owners) {
    && (forall k :: 0 <= k < |bs| && bs[k].used ==>
         bs[k].Payload() in owner && Need(owner[bs[k].Payload()]) <= bs[k].size)
    && (forall p :: p in owner ==> UsedAt(bs, p))
  }

  lemma FreeNotOwned(bs: seq<Block>, lo: nat, hi: nat, k: nat, owner: Owners)
    requires Tiled(bs, lo, hi) && Owned(bs, owner) && k < |bs| && !bs[k].used
    ensures bs[k].Payload() !in owner
  {
    if bs[k].Payload() in owner {
      var j: nat :| IsUsed(bs, j, bs[k].Payload());
      Apart(bs, lo, hi, j, k);
      assert false;
    }
  }

  lemma OwnedCarve(bs: seq<Block>, lo: nat, hi: nat, k: nat, needed: nat, owner: Owners, o: Owner)
    requires Tiled(bs, lo, hi) && Owned(bs, owner) && k < |bs| && Fits(bs[k], needed)
    requires needed % 16 == 0 && 16 <= needed && Need(o) <= needed
    ensures bs[k].Payload() !in owner
    ensures Owned(Carve(bs, k, needed), owner[bs[k].Payload() := o])
  {
    hide Need, ClassOf;
    FreeNotOwned(bs, lo, hi, k, owner);
    CarveTiled(bs, lo, hi, k, needed);
    hide Tiled, Carve;
    var bs', p := Carve(bs, k, needed), bs[k].Payload();
    var d := |Split(bs[k], needed)|;
    forall j | 0 <= j < |bs'| && bs'[j].used
      ensures bs'[j].Payload() in owner[p := o] && Need(owner[p := o][bs'[j].Payload()]) <= bs'[j].size
    {
      CarveIndex(bs, k, needed, j);
    }
    forall q | q in owner[p := o]
      ensures UsedAt(bs', q)
    {
      if q == p {
        assert IsUsed(bs', k, p);
      } else {
        var j: nat :| IsUsed(bs, j, q);
        var j' := if j < k then j else j + d - 1;
        CarveIndex(bs, k, needed, k);
        CarveIndex(bs, k, needed, j');
        assert IsUsed(bs', j', q);
      }
    }
  }

  /** Ownership depends on the used blocks alone. */
  lemma OwnedSame(bs: seq<Block>, bs': seq<Block>, owner: Owners)
    requires Owned(bs, owner) && SameUsed(bs, bs')
    ensures Owned(bs', owner)
  {
    hide Need;
    forall q | q in owner
      ensures UsedAt(bs', q)
    {
      var j: nat :| IsUsed(bs, j, q);
      assert bs[j] in bs;
      var j': nat :| j' < |bs'| && bs'[j'] == bs[j];
      assert IsUsed(bs', j', q);
    }
    forall k | 0 <= k < |bs'| && bs'[k].used
      ensures bs'[k].Payload() in owner && Need(owner[bs'[k].Payload()]) <= bs'[k].size
    {
      assert bs'[k] in bs' && bs'[k] in bs;
    }
  }

  lemma OwnedGrow(bs: seq<Block>, hi: nat, bytes: nat, owner: Owners)
    requires Owned(bs, owner) && HEADER <= bytes
    ensures Owned(Grow(bs, hi, bytes), owner)
  {
    var bs' := Grow(bs, hi, bytes);
    var n := |bs| - 1;
    forall b: Block
      ensures b in bs' && b.used <==> b in bs && b.used
    {
      if bs != [] && !bs[n].used {
        assert bs == bs[..n] + [bs[n]];
      }
    }
    hide Owned;
    OwnedSame(bs, bs', owner);
  }

  // ---------------------------------------------------------------------------
  // The slab freelists
  // ---------------------------------------------------------------------------

  function Follow(list: seq<nat>, j: nat): nat {
    if j < |list| then list[j] else 0
  }

  ghost predicate LinkOk(m: Mem, list: seq<nat>, j: nat)
    requires j < |list|
  {
    At(m, list[j]) == Follow(list, j + 1)
  }

  ghost predicate NoRepeats(list: seq<nat>) {
    forall i, j :: 0 <= i < j < |list| ==> list[i] != list[j]
  }

  /** The freelist of class `c` holds exactly the slots of that class, each once. */
  ghost predicate SlabOk(m: Mem, head: nat, list: seq<nat>, owner: Owners, c: nat) {
    && head == Follow(list, 0) && NoRepeats(list)
    && (forall j :: 0 <= j < |list| ==> LinkOk(m, list, j))
    && (forall p :: p in list <==> p in owner && owner[p] == Slot(c))
  }

  ghost predicate SlabsOk(m: Mem, heads: seq<nat>, slabs: seq<seq<nat>>, owner: Owners) {
    && |heads| == CLASSES && |slabs| == CLASSES
    && forall c :: 0 <= c < CLASSES ==> SlabOk(m, heads[c], slabs[c], owner, c)
  }

  /** A slot's link word is the first word of a used payload. */
  lemma SlabOkKept(m: Mem, m': Mem, head: nat, list: seq<nat>, owner: Owners, c: nat, owner': Owners)
    requires SlabOk(m, head, list, owner, c)
    requires forall p :: p in list ==> At(m', p) == At(m, p)
    requires forall p :: p in owner' && owner'[p] == Slot(c) <==> p in owner && owner[p] == Slot(c)
    ensures SlabOk(m', head, list, owner', c)
  {
    forall j | 0 <= j < |list|
      ensures LinkOk(m', list, j)
    {
      assert LinkOk(m, list, j) && list[j] in list;
    }
  }

  lemma SlabsKept(m: Mem, m': Mem, heads: seq<nat>, slabs: seq<seq<nat>>, owner: Owners, owner': Owners)
    requires SlabsOk(m, heads, slabs, owner)
    requires forall p :: p in owner && owner[p].Slot? ==> At(m', p) == At(m, p)
    requires forall p, c :: p in owner' && owner'[p] == Slot(c) <==> p in owner && owner[p] == Slot(c)
    ensures SlabsOk(m', heads, slabs, owner')
  {
    hide SlabOk;
    forall c | 0 <= c < CLASSES
      ensures SlabOk(m', heads[c], slabs[c], owner', c)
    {
      assert SlabOk(m, heads[c], slabs[c], owner, c);
      SlabMembers(m, heads[c], slabs[c], owner, c);
      SlabOkKept(m, m', heads[c], slabs[c], owner, c, owner');
    }
  }

  lemma SlabMembers(m: Mem, head: nat, list: seq<nat>, owner: Owners, c: nat)
    requires SlabOk(m, head, list, owner, c)
    ensures forall p :: p in list <==> p in owner && owner[p] == Slot(c)
    ensures head == Follow(list, 0)
  {
  }

  /** Keeping used payloads keeps the freelists and every caller's bytes. */
  lemma PayloadWords(m: Mem, m': Mem, bs: seq<Block>, lo: nat, hi: nat, owner: Owners, p: nat, a: nat)
    requires Tiled(bs, lo, hi) && Owned(bs, owner) && PayloadsKept(m, m', bs)
    requires p in owner && (a == p || p <= a < p + Need(owner[p]))
    ensures At(m', a) == At(m, a)
  {
    hide Need;
    var k: nat :| IsUsed(bs, k, p);
    assert Placed(bs, lo, k);
  }

  /** Every owner's bytes are as they were. */
  ghost predicate Kept(m: Mem, m': Mem, owner: Owners) {
    forall p, a: nat :: p in owner && p <= a < p + Need(owner[p]) ==> At(m', a) == At(m, a)
  }

  lemma KeptTrans(m: Mem, m1: Mem, m2: Mem, owner: Owners)
    requires Kept(m, m1, owner) && Kept(m1, m2, owner)
    ensures Kept(m, m2, owner)
  {
    hide Need;
  }

  /** What a change outside used payloads leaves intact. */
  lemma StillOwned(m: Mem, m': Mem, bs: seq<Block>, lo: nat, hi: nat, owner: Owners, heads: seq<nat>,
                   slabs: seq<seq<nat>>)
    requires Tiled(bs, lo, hi) && Owned(bs, owner) && PayloadsKept(m, m', bs) && SlabsOk(m, heads, slabs, owner)
    ensures Kept(m, m', owner) && SlabsOk(m', heads, slabs, owner)
  {
    hide Tiled, Owned, PayloadsKept, SlabsOk, Need;
    forall p, a: nat | p in owner && p <= a < p + Need(owner[p])
      ensures At(m', a) == At(m, a)
    {
      PayloadWords(m, m', bs, lo, hi, owner, p, a);
    }
    forall p | p in owner
      ensures At(m', p) == At(m, p)
    {
      PayloadWords(m, m', bs, lo, hi, owner, p, p);
    }
    SlabsKept(m, m', heads, slabs, owner, owner);
  }

  lemma EndAligned(bs: seq<Block>, lo: nat, hi: nat)
    requires Tiled(bs, lo, hi) && lo % 16 == 0
    ensures hi % 16 == 0 && lo <= hi
  {
    if bs != [] {
      assert Placed(bs, lo, |bs| - 1);
      Inside(bs, lo, hi, |bs| - 1);
    }
  }

  /** Headers tile the range, used blocks have owners, and the freelists hold the free slots. */
  ghost predicate Consistent(m: Mem, bs: seq<Block>, lo: nat, hi: nat, owner: Owners, heads: seq<nat>,
                             slabs: seq<seq<nat>>) {
    && 0 < lo && lo % 16 == 0 && Tiled(bs, lo, hi) && Encoded(m, bs)
    && Owned(bs, owner) && SlabsOk(m, heads, slabs, owner)
  }

  lemma CarveConsistent(m: Mem, bs: seq<Block>, lo: nat, hi: nat, owner: Owners, heads: seq<nat>, slabs: seq<seq<nat>>,
                        k: nat, needed: nat, o: Owner)
    requires Consistent(m, bs, lo, hi, owner, heads, slabs) && k < |bs| && Fits(bs[k], needed)
    requires needed % 16 == 0 && 16 <= needed && Need(o) <= needed && o.Live?
    ensures Consistent(Carved(m, bs[k], needed), Carve(bs, k, needed), lo, hi, owner[bs[k].Payload() := o], heads,
                       slabs)
    ensures bs[k].Payload() !in owner && Kept(m, Carved(m, bs[k], needed), owner) && Carve(bs, k, needed) != []
  {
    hide Encoded, Owned, SlabsOk, Tiled, Carve, Need, Kept, Carved, PayloadsKept;
    var m' := Carved(m, bs[k], needed);
    CarvedEncoded(m, bs, lo, hi, k, needed);
    CarveTiled(bs, lo, hi, k, needed);
    OwnedCarve(bs, lo, hi, k, needed, owner, o);
    StillOwned(m, m', bs, lo, hi, owner, heads, slabs);
    SlabsKept(m', m', heads, slabs, owner, owner[bs[k].Payload() := o]);
    CarveHead(bs, k, needed);
  }

  lemma GlueConsistent(m: Mem, bs: seq<Block>, lo: nat, hi: nat, owner: Owners, heads: seq<nat>, slabs: seq<seq<nat>>,
                       k: nat)
    requires Consistent(m, bs, lo, hi, owner, heads, slabs) && k + 1 < |bs| && !bs[k].used && !bs[k + 1].used
    ensures Consistent(Glued(m, bs[k], bs[k + 1]), GlueAt(bs, k), lo, hi, owner, heads, slabs)
    ensures Kept(m, Glued(m, bs[k], bs[k + 1]), owner) && GlueAt(bs, k) != []
  {
    hide Encoded, Owned, SlabsOk, Tiled, GlueAt, Need, Kept, PayloadsKept, SameUsed, Glued;
    GluedEncoded(m, bs, lo, hi, k);
    GlueAtTiled(bs, lo, hi, k);
    GlueAtUsed(bs, k);
    OwnedSame(bs, GlueAt(bs, k), owner);
    StillOwned(m, Glued(m, bs[k], bs[k + 1]), bs, lo, hi, owner, heads, slabs);
    GlueAtSome(bs, k);
  }

  lemma GrowConsistent(m: Mem, bs: seq<Block>, lo: nat, hi: nat, owner: Owners, heads: seq<nat>, slabs: seq<seq<nat>>,
                       bytes: nat)
    requires Consistent(m, bs, lo, hi, owner, heads, slabs) && bytes % 16 == 0 && HEADER + 16 <= bytes
    ensures Consistent(GrownMem(m, bs, hi, bytes), Grow(bs, hi, bytes), lo, hi + bytes, owner, heads, slabs)
    ensures Kept(m, GrownMem(m, bs, hi, bytes), owner) && Grow(bs, hi, bytes) != [] && hi % 16 == 0 && lo <= hi
  {
    hide Encoded, Owned, SlabsOk, Tiled, Need, Kept, GrownMem, Grow, PayloadsKept;
    EndAligned(bs, lo, hi);
    GrownEncoded(m, bs, lo, hi, bytes);
    GrowTiled(bs, lo, hi, bytes);
    OwnedGrow(bs, hi, bytes, owner);
    StillOwned(m, GrownMem(m, bs, hi, bytes), bs, lo, hi, owner, heads, slabs);
    GrownSome(bs, hi, bytes);
  }

  // ---------------------------------------------------------------------------
  // Changes inside one used block
  // ---------------------------------------------------------------------------

  lemma SameIndex(bs: seq<Block>, lo: nat, hi: nat, j: nat, k: nat, p: nat)
    requires Tiled(bs, lo, hi) && IsUsed(bs, j, p) && IsUsed(bs, k, p)
    ensures j == k
  {
    if j != k { Apart(bs, lo, hi, j, k); }
  }

  /** Other headers, and other owners' bytes, do not see a change confined to block `k`. */
  lemma OthersKept(m: Mem, m': Mem, bs: seq<Block>, lo: nat, hi: nat, owner: Owners, k: nat, p: nat)
    requires Tiled(bs, lo, hi) && Encoded(m, bs) && Owned(bs, owner) && IsUsed(bs, k, p)
    requires Confined(m, m', bs[k].start, bs[k].End())
    ensures forall j :: 0 <= j < |bs| && j != k ==> HeaderOk(m', bs, j)
    ensures Kept(m, m', owner - {p})
    ensures forall q :: q in owner && q != p ==> At(m', q) == At(m, q)
  {
    hide Need;
    forall j | 0 <= j < |bs| && j != k
      ensures HeaderOk(m', bs, j)
    {
      assert HeaderOk(m, bs, j);
      Apart(bs, lo, hi, j, k);
    }
    forall q, a: nat | q in owner && q != p && (a == q || q <= a < q + Need(owner[q]))
      ensures At(m', a) == At(m, a)
    {
      var j: nat :| IsUsed(bs, j, q);
      Apart(bs, lo, hi, j, k);
      assert Placed(bs, lo, j);
    }
  }

  /** A change of payload words alone keeps every header. */
  lemma HeadersKept(m: Mem, m': Mem, bs: seq<Block>, lo: nat, hi: nat, owner: Owners, k: nat, p: nat)
    requires Tiled(bs, lo, hi) && Encoded(m, bs) && Owned(bs, owner) && IsUsed(bs, k, p)
    requires Confined(m, m', p, bs[k].End())
    ensures Encoded(m', bs)
  {
    hide Owned, Tiled;
    OthersKept(m, m', bs, lo, hi, owner, k, p);
    assert HeaderOk(m, bs, k);
    assert HeaderOk(m', bs, k);
  }

  lemma OwnedRelabel(bs: seq<Block>, owner: Owners, p: nat, o: Owner)
    requires Owned(bs, owner) && p in owner && Need(o) <= Need(owner[p])
    ensures Owned(bs, owner[p := o])
  {
    hide Need, UsedAt;
  }

  function FreeAt(bs: seq<Block>, k: nat): seq<Block>
    requires k < |bs|
  {
    bs[k := bs[k].(used := false)]
  }

  lemma FreeTiled(bs: seq<Block>, lo: nat, hi: nat, k: nat)
    requires Tiled(bs, lo, hi) && k < |bs|
    ensures Tiled(FreeAt(bs, k), lo, hi)
  {
    forall j | 0 <= j < |bs|
      ensures Placed(FreeAt(bs, k), lo, j)
    {
      assert Placed(bs, lo, j);
    }
  }

  /** The block at `p` becomes free. */
  lemma OwnedFree(bs: seq<Block>, lo: nat, hi: nat, owner: Owners, k: nat, p: nat)
    requires Tiled(bs, lo, hi) && Owned(bs, owner) && IsUsed(bs, k, p)
    ensures Owned(FreeAt(bs, k), owner - {p})
  {
    hide Need, Tiled;
    var bs' := FreeAt(bs, k);
    forall j | 0 <= j < |bs'| && bs'[j].used
      ensures bs'[j].Payload() in owner - {p} && Need(owner[bs'[j].Payload()]) <= bs'[j].size
    {
      if bs[j].Payload() == p { SameIndex(bs, lo, hi, j, k, p); }
    }
    forall q | q in owner - {p}
      ensures UsedAt(bs', q)
    {
      var j: nat :| IsUsed(bs, j, q);
      assert IsUsed(bs', j, q);
    }
  }

  lemma FreeConsistent(m: Mem, m1: Mem, bs: seq<Block>, lo: nat, hi: nat, owner: Owners, heads: seq<nat>,
                       slabs: seq<seq<nat>>, k: nat, p: nat)
    requires Consistent(m, bs, lo, hi, owner, heads, slabs) && IsUsed(bs, k, p) && p in owner && owner[p].Live?
    requires Confined(m, m1, p, bs[k].End())
    ensures Consistent(m1[bs[k].start := MAGIC_FREE], FreeAt(bs, k), lo, hi, owner - {p}, heads, slabs)
    ensures Kept(m, m1[bs[k].start := MAGIC_FREE], owner - {p})
  {
    hide Tiled, Owned, SlabsOk, Need, Kept;
    var m2, bs' := m1[bs[k].start := MAGIC_FREE], FreeAt(bs, k);
    FreeTiled(bs, lo, hi, k);
    OthersKept(m, m2, bs, lo, hi, owner, k, p);
    OwnedFree(bs, lo, hi, owner, k, p);
    SlabsKept(m, m2, heads, slabs, owner, owner - {p});
    forall j | 0 <= j < |bs'|
      ensures HeaderOk(m2, bs', j)
    {
      assert HeaderOk(m, bs, j) && NextOf(bs', j) == NextOf(bs, j);
      if j != k { assert HeaderOk(m2, bs, j); }
    }
  }

  lemma PopSlab(m: Mem, list: seq<nat>, owner: Owners, c: nat, o: Owner)
    requires SlabOk(m, Follow(list, 0), list, owner, c) && list != [] && o.Live?
    ensures SlabOk(m[list[0] := 0], At(m, list[0]), list[1..], owner[list[0] := o], c)
  {
    var m', rest := m[list[0] := 0], list[1..];
    assert LinkOk(m, list, 0);
    forall j | 0 <= j < |rest|
      ensures LinkOk(m', rest, j)
    {
      assert LinkOk(m, list, j + 1);
    }
    assert list == [list[0]] + list[1..];
  }

  lemma PushSlab(m: Mem, m1: Mem, head: nat, list: seq<nat>, owner: Owners, c: nat, p: nat)
    requires SlabOk(m, head, list, owner, c) && p !in list && p in owner
    requires forall q :: q in list ==> At(m1, q) == At(m, q)
    ensures SlabOk(m1[p := head], p, [p] + list, owner[p := Slot(c)], c)
  {
    var all, m' := [p] + list, m1[p := head];
    forall j | 0 <= j < |all|
      ensures LinkOk(m', all, j)
    {
      if 0 < j { assert LinkOk(m, list, j - 1) && list[j - 1] in list; }
    }
  }

  lemma PopConsistent(m: Mem, bs: seq<Block>, lo: nat, hi: nat, owner: Owners, heads: seq<nat>, slabs: seq<seq<nat>>,
                      c: nat, size: nat)
    requires Consistent(m, bs, lo, hi, owner, heads, slabs) && ClassOf(size) == Some(c) && heads[c] != 0
    ensures var p := heads[c];
            && lo <= p < hi && p % 16 == 0 && p in owner && owner[p] == Slot(c) && slabs[c] != []
            && Consistent(m[p := 0], bs, lo, hi, owner[p := Live(size, true)], heads[c := At(m, p)],
                          slabs[c := slabs[c][1..]])
            && Kept(m, m[p := 0], owner - {p})
  {
    hide Tiled, Owned, Encoded, Kept, SlabOk;
    var p, o := heads[c], Live(size, true);
    assert SlabOk(m, heads[c], slabs[c], owner, c);
    SlabMembers(m, heads[c], slabs[c], owner, c);
    assert p in slabs[c] && slabs[c][0] == p;
    OwnedBlock(bs, owner, p);
    var k: nat :| IsUsed(bs, k, p);
    OwnerInside(bs, lo, hi, owner, k, p);
    HeadersKept(m, m[p := 0], bs, lo, hi, owner, k, p);
    OthersKept(m, m[p := 0], bs, lo, hi, owner, k, p);
    OwnedRelabel(bs, owner, p, o);
    PopSlab(m, slabs[c], owner, c, o);
    var heads', slabs' := heads[c := At(m, p)], slabs[c := slabs[c][1..]];
    forall c' | 0 <= c' < CLASSES
      ensures SlabOk(m[p := 0], heads'[c'], slabs'[c'], owner[p := o], c')
    {
      if c' != c {
        assert SlabOk(m, heads[c'], slabs[c'], owner, c');
        SlabMembers(m, heads[c'], slabs[c'], owner, c');
        SlabOkKept(m, m[p := 0], heads[c'], slabs[c'], owner, c', owner[p := o]);
      }
    }
  }

  lemma OwnedBlock(bs: seq<Block>, owner: Owners, p: nat)
    requires Owned(bs, owner) && p in owner
    ensures exists k: nat :: IsUsed(bs, k, p)
  {
  }

  lemma OwnerInside(bs: seq<Block>, lo: nat, hi: nat, owner: Owners, k: nat, p: nat)
    requires Tiled(bs, lo, hi) && Owned(bs, owner) && IsUsed(bs, k, p)
    ensures lo < p && p + 16 <= bs[k].End() <= hi && p % 16 == 0 && p in owner && Need(owner[p]) <= bs[k].size
  {
    hide Need;
    assert Placed(bs, lo, k);
    Inside(bs, lo, hi, k);
  }

  lemma PushConsistent(m: Mem, m1: Mem, bs: seq<Block>, lo: nat, hi: nat, owner: Owners, heads: seq<nat>,
                       slabs: seq<seq<nat>>, c: nat, p: nat, size: nat)
    requires Consistent(m, bs, lo, hi, owner, heads, slabs) && ClassOf(size) == Some(c)
    requires p in owner && owner[p] == Live(size, true) && Confined(m, m1, p, p + ClassSize(c))
    ensures Consistent(m1[p := heads[c]], bs, lo, hi, owner[p := Slot(c)], heads[c := p], slabs[c := [p] + slabs[c]])
    ensures Kept(m, m1[p := heads[c]], owner - {p})
  {
    hide Tiled, Owned, Encoded, Kept, SlabOk;
    var m2, o := m1[p := heads[c]], Slot(c);
    OwnedBlock(bs, owner, p);
    var k: nat :| IsUsed(bs, k, p);
    OwnerInside(bs, lo, hi, owner, k, p);
    assert Confined(m, m2, p, bs[k].End());
    HeadersKept(m, m2, bs, lo, hi, owner, k, p);
    OthersKept(m, m2, bs, lo, hi, owner, k, p);
    OwnedRelabel(bs, owner, p, o);
    var heads', slabs' := heads[c := p], slabs[c := [p] + slabs[c]];
    forall c' | 0 <= c' < CLASSES
      ensures SlabOk(m2, heads'[c'], slabs'[c'], owner[p := o], c')
    {
      assert SlabOk(m, heads[c'], slabs[c'], owner, c');
      SlabMembers(m, heads[c'], slabs[c'], owner, c');
      if c' == c {
        PushSlab(m, m2, heads[c], slabs[c], owner, c, p);
        assert m2[p := heads[c]] == m2;
      } else {
        SlabOkKept(m, m2, heads[c'], slabs[c'], owner, c', owner[p := o]);
      }
    }
  }

  /** A caller's store into its own bytes. */
  lemma PokeConsistent(m: Mem, bs: seq<Block>, lo: nat, hi: nat, owner: Owners, heads: seq<nat>, slabs: seq<seq<nat>>,
                       p: nat, a: nat, v: nat)
    requires Consistent(m, bs, lo, hi, owner, heads, slabs)
    requires p in owner && owner[p].Live? && p <= a < p + owner[p].size
    ensures Consistent(m[a := v], bs, lo, hi, owner, heads, slabs) && Kept(m, m[a := v], owner - {p})
    ensures lo <= a < hi
  {
    hide Tiled, Owned, Encoded, Kept, SlabsOk;
    OwnedBlock(bs, owner, p);
    var k: nat :| IsUsed(bs, k, p);
    OwnerInside(bs, lo, hi, owner, k, p);
    HeadersKept(m, m[a := v], bs, lo, hi, owner, k, p);
    OthersKept(m, m[a := v], bs, lo, hi, owner, k, p);
    SlabsKept(m, m[a := v], heads, slabs, owner, owner);
  }

  /** Room for `needed` bytes, with `bytes` more appended when coalescing is not enough. */
  ghost predicate Room(bs: seq<Block>, needed: nat, bytes: nat) {
    HasRun(bs, needed) || (0 < bytes && needed + HEADER <= TailFree(bs) + bytes)
  }

  function PagesFor(needed: nat, pageSize: nat): nat
    requires 0 < pageSize
  {
    Max((needed + pageSize - 1) / pageSize, 1)
  }

  function Max(a: nat, b: nat): nat {
    if a < b then b else a
  }

  /** Pages `grow_for_size` ends up with: the batch, else the minimum, else none. */
  function GrownPages(needed: nat, pageSize: nat, batchOk: bool, minOk: bool): nat
    requires 0 < pageSize
  {
    var pages := PagesFor(needed, pageSize);
    var batch := Max(pages, GROWTH_PAGES);
    if batchOk then batch else if pages < batch && minOk then pages else 0
  }

  /** What is left of the last of the fewest pages that hold `needed` bytes. */
  function Slack(needed: nat, pageSize: nat): nat
    requires 0 < pageSize
  {
    (pageSize - needed % pageSize) % pageSize
  }

  /** Growing makes room: the free tail, the batch or the slack of the last page take the new header. */
  ghost predicate Growable(bs: seq<Block>, needed: nat, pageSize: nat, batchOk: bool, minOk: bool)
    requires 0 < pageSize
  {
    var tight := HEADER <= TailFree(bs) + Slack(needed, pageSize);
    if batchOk then tight || needed + HEADER <= TailFree(bs) + GROWTH_PAGES * pageSize
    else minOk && tight && needed <= (GROWTH_PAGES - 1) * pageSize
  }

  /** Bytes `grow_for_size` appends: the batch or the whole pages the request takes, whichever is more; only the
      latter when the batch cannot be mapped. */
  function Gained(needed: nat, pageSize: nat, batchOk: bool, minOk: bool): nat
    requires 0 < pageSize
  {
    var whole := if needed == 0 then pageSize else needed + Slack(needed, pageSize);
    if batchOk then Max(whole, GROWTH_PAGES * pageSize)
    else if minOk && needed <= (GROWTH_PAGES - 1) * pageSize then whole
    else 0
  }

  lemma SlackIs(needed: nat, pageSize: nat)
    requires 0 < pageSize
    ensures Slack(needed, pageSize) == if needed % pageSize == 0 then 0 else pageSize - needed % pageSize
    ensures Slack(needed, pageSize) < pageSize
  {
    if needed % pageSize != 0 { Quotient(pageSize - needed % pageSize, 0, pageSize); }
  }

  /** The slack takes a header exactly when the last page is begun and leaves that much. */
  lemma HeaderInSlack(needed: nat, pageSize: nat)
    requires 0 < pageSize
    ensures HEADER <= Slack(needed, pageSize) <==> 0 < needed % pageSize && needed % pageSize + HEADER <= pageSize
  {
    hide Slack;
    SlackIs(needed, pageSize);
  }

  lemma PageBytes(needed: nat, pageSize: nat)
    requires 0 < pageSize && 0 < needed
    ensures PagesFor(needed, pageSize) * pageSize == needed + Slack(needed, pageSize)
  {
    hide Slack;
    SlackIs(needed, pageSize);
    var q, r := needed / pageSize, needed % pageSize;
    Divided(needed, pageSize);
    Distribute(q, 0, pageSize);
    Quotient(needed + pageSize - 1, if r == 0 then q else q + 1, pageSize);
  }

  lemma Divided(n: nat, d: nat)
    requires 0 < d
    ensures n == n / d * d + n % d
  {
  }

  lemma Quotient(n: nat, k: nat, d: nat)
    requires 0 < d && k * d <= n < k * d + d
    ensures n / d == k
  {
    Divided(n, d);
    if n / d != k { Multiples(n / d, k, d); }
  }

  /** The pages grown are those bytes. */
  lemma GainedIs(needed: nat, pageSize: nat, batchOk: bool, minOk: bool)
    requires 0 < pageSize
    ensures GrownPages(needed, pageSize, batchOk, minOk) * pageSize == Gained(needed, pageSize, batchOk, minOk)
  {
    hide Slack, PagesFor;
    var pages := PagesFor(needed, pageSize);
    if 0 < needed { PageBytes(needed, pageSize); } else { OnePage(pageSize); }
    SlackIs(needed, pageSize);
    if pages != GROWTH_PAGES { Multiples(pages, GROWTH_PAGES, pageSize); }
    assert GROWTH_PAGES * pageSize == (GROWTH_PAGES - 1) * pageSize + pageSize;
  }

  lemma OnePage(pageSize: nat)
    requires 0 < pageSize
    ensures PagesFor(0, pageSize) == 1
  {
    Quotient(pageSize - 1, 0, pageSize);
  }

  /** When growth serves a request that no run holds, in bytes. */
  lemma GrowthServes(bs: seq<Block>, needed: nat, pageSize: nat, batchOk: bool, minOk: bool)
    requires 0 < pageSize && 0 < needed
    ensures Room(bs, needed, GrownPages(needed, pageSize, batchOk, minOk) * pageSize) <==>
            HasRun(bs, needed) || Growable(bs, needed, pageSize, batchOk, minOk)
  {
    hide HasRun, TailFree, Slack, GrownPages;
    GainedIs(needed, pageSize, batchOk, minOk);
  }

  lemma Aligned(base: nat, pageSize: nat)
    requires 0 < pageSize && base % pageSize == 0 && pageSize % 4096 == 0
    ensures base % 16 == 0
  {
    var q, r := base / pageSize, pageSize / 4096;
    assert base == q * pageSize && pageSize == r * 4096;
    assert base == 16 * (q * r * 256);
  }

  /** The address the list walk holds when it stands at block `k`. */
  function Cursor(bs: seq<Block>, k: nat): nat {
    if k < |bs| then bs[k].start else 0
  }

  lemma StartOf(m: Mem, bs: seq<Block>, lo: nat, hi: nat, owner: Owners, heads: seq<nat>, slabs: seq<seq<nat>>)
    requires Consistent(m, bs, lo, hi, owner, heads, slabs)
    ensures Cursor(bs, 0) == if bs == [] then 0 else lo
  {
    hide Owned, SlabsOk, Encoded;
    if bs != [] { assert Placed(bs, lo, 0); }
  }

  /** What the walk may read at block `k`, and that null marks the end. */
  lemma Visit(m: Mem, bs: seq<Block>, lo: nat, hi: nat, owner: Owners, heads: seq<nat>, slabs: seq<seq<nat>>,
              k: nat)
    requires Consistent(m, bs, lo, hi, owner, heads, slabs) && k < |bs|
    ensures lo <= bs[k].start && bs[k].End() <= hi && Fine(bs[k])
    ensures HeaderOk(m, bs, k) && At(m, bs[k].start + 16) == Cursor(bs, k + 1)
    ensures k + 1 < |bs| ==> 0 < bs[k + 1].start && bs[k].End() == bs[k + 1].start
  {
    hide Owned, SlabsOk, Fine;
    Inside(bs, lo, hi, k);
    assert HeaderOk(m, bs, k) && Placed(bs, lo, k);
    if k + 1 < |bs| { assert Placed(bs, lo, k + 1); }
  }

  lemma HeaderWords(a: nat)
    requires a % 16 == 0
    ensures a % 8 == 0 && (a + 8) % 8 == 0 && (a + 16) % 8 == 0
  {
  }

  lemma RestWords(a: nat, needed: nat)
    requires a % 16 == 0 && needed % 16 == 0
    ensures (a + HEADER + needed) % 16 == 0
  {
  }

  lemma AtEnd(m: Mem, bs: seq<Block>, lo: nat, hi: nat, owner: Owners, heads: seq<nat>, slabs: seq<seq<nat>>,
              k: nat)
    requires Consistent(m, bs, lo, hi, owner, heads, slabs) && k <= |bs| && Cursor(bs, k) == 0
    ensures k == |bs| && bs[..k] == bs
  {
    if k < |bs| { Inside(bs, lo, hi, k); }
  }

  lemma NoFitSnoc(bs: seq<Block>, k: nat, needed: nat)
    requires k < |bs| && NoFit(bs[..k], needed) && !Fits(bs[k], needed)
    ensures NoFit(bs[..k + 1], needed)
  {
    assert forall j :: 0 <= j < k ==> bs[..k + 1][j] == bs[..k][j];
  }

  lemma CarveHead(bs: seq<Block>, k: nat, needed: nat)
    requires k < |bs| && needed <= bs[k].size
    ensures Carve(bs, k, needed) != []
  {
  }

  lemma CarvedIs(m: Mem, b: Block, needed: nat)
    requires needed <= b.size
    ensures var rest := b.start + HEADER + needed;
            Carved(m, b, needed) ==
            if needed + HEADER + MIN_BLOCK <= b.size
            then m[rest := MAGIC_FREE][rest + 8 := b.size - needed - HEADER][rest + 16 := At(m, b.start + 16)]
                   [b.start + 16 := rest][b.start + 8 := needed][b.start := MAGIC_USED]
            else m[b.start := MAGIC_USED]
  {
  }

  lemma KeptRefl(m: Mem, owner: Owners)
    ensures Kept(m, m, owner)
  {
  }

  lemma GlueAtSome(bs: seq<Block>, k: nat)
    requires k + 1 < |bs|
    ensures GlueAt(bs, k) != []
  {
  }

  lemma MergeGlue(bs: seq<Block>, k: nat)
    requires k + 1 < |bs| && !bs[k].used && !bs[k + 1].used
    ensures GlueAt(bs, k)[..k] + Merge(GlueAt(bs, k)[k..]) == bs[..k] + Merge(bs[k..])
    ensures |GlueAt(bs, k)| == |bs| - 1 && Cursor(GlueAt(bs, k), k) == Cursor(bs, k)
  {
    assert GlueAt(bs, k)[k..] == [Glue(bs[k..][0], bs[k..][1])] + bs[k..][2..];
    assert GlueAt(bs, k)[..k] == bs[..k];
  }

  lemma MergeSkip(bs: seq<Block>, k: nat)
    requires k < |bs| && (bs[k].used || k + 1 == |bs| || bs[k + 1].used)
    ensures bs[..k + 1] + Merge(bs[k + 1..]) == bs[..k] + Merge(bs[k..])
  {
    assert bs[k..][1..] == bs[k + 1..] && bs[k..][0] == bs[k] && bs[..k + 1] == bs[..k] + [bs[k]];
    if k + 1 == |bs| {
      assert bs[k..] == [bs[k]] && bs[k + 1..] == [];
    } else {
      assert bs[k..][1] == bs[k + 1];
    }
  }

  lemma MergeNone(bs: seq<Block>, k: nat)
    requires k == |bs|
    ensures bs[..k] + Merge(bs[k..]) == bs
  {
  }

  lemma GrowthBytes(pages: nat, pageSize: nat)
    requires 0 < pages && 0 < pageSize && pageSize % 4096 == 0
    ensures (pages * pageSize) % 16 == 0 && HEADER + 16 <= pages * pageSize
  {
    var r := pageSize / 4096;
    assert pages * pageSize == 16 * (pages * r * 256) && 1 <= pages * r;
  }

  lemma TailIs(m: Mem, bs: seq<Block>, lo: nat, hi: nat, owner: Owners, heads: seq<nat>, slabs: seq<seq<nat>>,
               bytes: nat)
    requires Consistent(m, bs, lo, hi, owner, heads, slabs) && HEADER <= bytes
    ensures var m1 := m[hi := MAGIC_FREE][hi + 8 := bytes - HEADER][hi + 16 := 0];
            GrownMem(m, bs, hi, bytes) ==
            if bs == [] then m1
            else if bs[|bs| - 1].used then m1[bs[|bs| - 1].start + 16 := hi]
            else m1[bs[|bs| - 1].start + 8 := bs[|bs| - 1].size + bytes]
    ensures 0 < lo && (bs == [] ==> hi == lo) && (bs != [] ==> bs[|bs| - 1].End() == hi)
  {
    hide Owned, SlabsOk, Encoded;
  }

  lemma GrownSome(bs: seq<Block>, hi: nat, bytes: nat)
    requires HEADER <= bytes
    ensures Grow(bs, hi, bytes) != []
  {
  }

  lemma Rounded(size: nat)
    requires 0 < size
    ensures RoundUp(size) % 16 == 0 && size <= RoundUp(size) < size + 16 && 16 <= RoundUp(size)
  {
  }

  lemma FitHasRun(bs: seq<Block>, k: nat, needed: nat)
    requires k < |bs| && Fits(bs[k], needed)
    ensures HasRun(bs, needed)
  {
    assert Run(bs, needed, k, k);
  }

  lemma FitExists(bs: seq<Block>, k: nat, needed: nat)
    requires k < |bs| && Fits(bs[k], needed)
    ensures !NoFit(bs, needed)
  {
  }

  lemma MergedRoom(m: Mem, bs: seq<Block>, lo: nat, hi: nat, owner: Owners, heads: seq<nat>, slabs: seq<seq<nat>>,
                   needed: nat)
    requires Consistent(m, bs, lo, hi, owner, heads, slabs)
    ensures NoFit(Merge(bs), needed) <==> !HasRun(bs, needed)
    ensures NoAdjacentFree(Merge(bs)) && TailFree(Merge(bs)) == TailFree(bs)
  {
    hide Owned, SlabsOk, Encoded, Tiled, Merge, NoFit, HasRun, TailFree, NoAdjacentFree;
    Merged(bs, lo, hi);
    MergeRoom(bs, lo, hi, needed);
    TailFreeMerge(bs, lo, hi);
  }

  lemma GrownRoom(bs: seq<Block>, bs1: seq<Block>, hi: nat, needed: nat, pageSize: nat, batchOk: bool, minOk: bool)
    requires NoAdjacentFree(bs1) && NoFit(bs1, needed) && !HasRun(bs, needed) && TailFree(bs1) == TailFree(bs)
    requires 0 < pageSize && pageSize % 4096 == 0
    ensures var pages := GrownPages(needed, pageSize, batchOk, minOk);
            && (0 < pages ==> HEADER <= pages * pageSize)
            && (0 < pages ==> (NoFit(Grow(bs1, hi, pages * pageSize), needed) <==> !Room(bs, needed, pages * pageSize)))
            && (pages == 0 ==> !Room(bs, needed, pages * pageSize))
  {
    hide NoFit, HasRun, TailFree, NoAdjacentFree, GrownPages, Grow;
    var pages := GrownPages(needed, pageSize, batchOk, minOk);
    if 0 < pages {
      GrowthBytes(pages, pageSize);
      GrowRoom(bs1, hi, pages * pageSize, needed);
    }
  }

  /** What the magic in front of `p` says about `p`, when it is not forged. */
  lemma FreshPointer(m: Mem, bs: seq<Block>, lo: nat, hi: nat, owner: Owners, heads: seq<nat>, slabs: seq<seq<nat>>,
                     p: nat)
    requires Consistent(m, bs, lo, hi, owner, heads, slabs)
    ensures p in owner ==>
              && lo + HEADER <= p < hi && At(m, p - HEADER) == MAGIC_USED
              && exists k: nat :: IsUsed(bs, k, p)
  {
    hide Encoded, SlabsOk, Tiled, Owned, Need, NextOf, Fine;
    if p in owner {
      OwnedBlock(bs, owner, p);
      var k: nat :| IsUsed(bs, k, p);
      OwnerInside(bs, lo, hi, owner, k, p);
      Visit(m, bs, lo, hi, owner, heads, slabs, k);
    }
  }

  lemma HeaderBefore(p: nat)
    requires p % 16 == 0 && HEADER <= p
    ensures (p - HEADER) % 16 == 0 && (p - HEADER) % 8 == 0 && (p - HEADER + 8) % 8 == 0 && p % 8 == 0
  {
  }

  lemma WholeWords(n: nat)
    requires n % 16 == 0
    ensures 8 * (n / 8) == n
  {
  }

  lemma ClassAligned(c: nat)
    requires c < CLASSES
    ensures ClassSize(c) % 16 == 0 && 16 <= ClassSize(c) && 8 * (ClassSize(c) / 8) == ClassSize(c)
  {
  }

  lemma SlabCount(m: Mem, bs: seq<Block>, lo: nat, hi: nat, owner: Owners, heads: seq<nat>, slabs: seq<seq<nat>>)
    requires Consistent(m, bs, lo, hi, owner, heads, slabs)
    ensures |heads| == CLASSES && |slabs| == CLASSES
  {
  }

  lemma EmptySlab(m: Mem, bs: seq<Block>, lo: nat, hi: nat, owner: Owners, heads: seq<nat>, slabs: seq<seq<nat>>,
                  c: nat)
    requires Consistent(m, bs, lo, hi, owner, heads, slabs) && c < CLASSES && heads[c] == 0
    ensures slabs[c] == []
  {
    hide Encoded, Owned, Tiled, SlabOk;
    assert SlabOk(m, heads[c], slabs[c], owner, c);
    SlabMembers(m, heads[c], slabs[c], owner, c);
    if slabs[c] != [] {
      assert slabs[c][0] in slabs[c];
      FreshPointer(m, bs, lo, hi, owner, heads, slabs, slabs[c][0]);
    }
  }

  lemma SlotInside(m: Mem, bs: seq<Block>, lo: nat, hi: nat, owner: Owners, heads: seq<nat>, slabs: seq<seq<nat>>,
                   p: nat)
    requires Consistent(m, bs, lo, hi, owner, heads, slabs) && p in owner
    ensures lo <= p && p + Need(owner[p]) <= hi && p % 8 == 0
  {
    hide Encoded, SlabsOk, Tiled, Need;
    var k: nat :| IsUsed(bs, k, p);
    OwnerInside(bs, lo, hi, owner, k, p);
    HeaderWords(p);
  }

  lemma KeptLess(m: Mem, m': Mem, owner: Owners, p: nat)
    requires Kept(m, m', owner)
    ensures Kept(m, m', owner - {p})
  {
    hide Need;
  }

  /** Growth is sized without the new block's header.  So a request of a whole number of pages, at least
      a batch, that no run holds fails even after the pages were mapped, unless the last block is free. */
  lemma WholePages(bs: seq<Block>, pages: nat, pageSize: nat, minOk: bool)
    requires GROWTH_PAGES <= pages && 0 < pageSize && !HasRun(bs, pages * pageSize)
    ensures GrownPages(pages * pageSize, pageSize, true, minOk) == pages
    ensures Growable(bs, pages * pageSize, pageSize, true, minOk) <==> bs != [] && !bs[|bs| - 1].used
  {
    hide HasRun;
    var n := pages * pageSize;
    Quotient(n + pageSize - 1, pages, pageSize);
    Quotient(n, pages, pageSize);
    Divided(n, pageSize);
    if pages != GROWTH_PAGES { Multiples(GROWTH_PAGES, pages, pageSize); }
  }

  /** Distinct multiples of `d` are at least `d` apart. */
  lemma Multiples(a: nat, b: nat, d: nat)
    requires a != b
    ensures a < b ==> a * d + d <= b * d
    ensures b < a ==> b * d + d <= a * d
  {
    if a < b {
      Distribute(a, b - a - 1, d);
    } else {
      Distribute(b, a - b - 1, d);
    }
  }

  lemma Distribute(a: nat, e: nat, d: nat)
    ensures (a + 1 + e) * d == a * d + d + e * d && 0 <= e * d
  {
  }
}
