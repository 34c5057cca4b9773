/** The first-fit block list of the kernel heap, as values: blocks that tile one address range, and
    what carving, coalescing and growing do to them.
 */
module HeapBlocks {
  /** Bytes of a BlockHeader, and the smallest remainder worth splitting off. */
  const HEADER: nat := 32
  const MIN_BLOCK: nat := 64

  datatype Block = Block(start: nat, size: nat, used: bool) {
    function Payload(): nat { start + HEADER }
    function End(): nat { start + HEADER + size }
  }

  predicate Fine(b: Block) {
    b.start % 16 == 0 && b.size % 16 == 0 && 16 <= b.size
  }

  /** Where block `k` of a tiling that begins at `lo` must start. */
  function Bound(bs: seq<Block>, lo: nat, k: nat): nat
    requires k <= |bs|
  {
    if k == 0 then lo else bs[k - 1].End()
  }

  ghost predicate Placed(bs: seq<Block>, lo: nat, k: nat)
    requires k < |bs|
  {
    Fine(bs[k]) && bs[k].start == Bound(bs, lo, k)
  }

  /** The blocks cover [lo, hi) without gap or overlap. */
  ghost predicate Tiled(bs: seq<Block>, lo: nat, hi: nat) {
    (forall k :: 0 <= k < |bs| ==> Placed(bs, lo, k)) && Bound(bs, lo, |bs|) == hi
  }

  lemma {:induction false} Ordered(bs: seq<Block>, lo: nat, hi: nat, i: nat, j: nat)
    requires Tiled(bs, lo, hi) && i < j < |bs|
    ensures bs[i].End() <= bs[j].start
    decreases j
  {
    assert Placed(bs, lo, j);
    if i < j - 1 {
      Ordered(bs, lo, hi, i, j - 1);
    }
  }

  lemma Inside(bs: seq<Block>, lo: nat, hi: nat, k: nat)
    requires Tiled(bs, lo, hi) && k < |bs|
    ensures lo <= bs[k].start && bs[k].End() <= hi
  {
    assert Placed(bs, lo, k) && Placed(bs, lo, 0);
    if 0 < k { Ordered(bs, lo, hi, 0, k); }
    if k < |bs| - 1 { Ordered(bs, lo, hi, k, |bs| - 1); }
  }

  /** Two different blocks share no byte, header or payload. */
  lemma Apart(bs: seq<Block>, lo: nat, hi: nat, i: nat, j: nat)
    requires Tiled(bs, lo, hi) && i < |bs| && j < |bs| && i != j
    ensures bs[i].End() <= bs[j].start || bs[j].End() <= bs[i].start
  {
    if i < j { Ordered(bs, lo, hi, i, j); } else { Ordered(bs, lo, hi, j, i); }
  }

  lemma TiledConcat(a: seq<Block>, b: seq<Block>, lo: nat, mid: nat, hi: nat)
    requires Tiled(a, lo, mid) && Tiled(b, mid, hi)
    ensures Tiled(a + b, lo, hi)
  {
    forall k | 0 <= k < |a + b|
      ensures Placed(a + b, lo, k)
    {
      if k < |a| {
        assert Placed(a, lo, k);
      } else {
        assert Placed(b, mid, k - |a|);
      }
    }
  }

  lemma TiledCut(bs: seq<Block>, lo: nat, hi: nat, k: nat)
    requires Tiled(bs, lo, hi) && k <= |bs|
    ensures Tiled(bs[..k], lo, Bound(bs, lo, k)) && Tiled(bs[k..], Bound(bs, lo, k), hi)
  {
    forall j | 0 <= j < k
      ensures Placed(bs[..k], lo, j)
    {
      assert Placed(bs, lo, j);
    }
    forall j | 0 <= j < |bs| - k
      ensures Placed(bs[k..], Bound(bs, lo, k), j)
    {
      assert Placed(bs, lo, k + j);
    }
  }

  // ---------------------------------------------------------------------------
  // First fit and split
  // ---------------------------------------------------------------------------

  predicate Fits(b: Block, needed: nat) {
    !b.used && needed <= b.size
  }

  ghost predicate NoFit(bs: seq<Block>, needed: nat) {
    forall k :: 0 <= k < |bs| ==> !Fits(bs[k], needed)
  }

  function Split(b: Block, needed: nat): seq<Block>
    requires needed <= b.size
  {
    if needed + HEADER + MIN_BLOCK <= b.size
    then [Block(b.start, needed, true), Block(b.start + HEADER + needed, b.size - needed - HEADER, false)]
    else [b.(used := true)]
  }

  function Carve(bs: seq<Block>, k: nat, needed: nat): seq<Block>
    requires k < |bs| && needed <= bs[k].size
  {
    bs[..k] + Split(bs[k], needed) + bs[k + 1..]
  }

  /** Carving keeps the tiling, and hands out at least what was asked for, at most 80 bytes more. */
  lemma CarveTiled(bs: seq<Block>, lo: nat, hi: nat, k: nat, needed: nat)
    requires Tiled(bs, lo, hi) && k < |bs| && Fits(bs[k], needed) && needed % 16 == 0 && 16 <= needed
    ensures Tiled(Carve(bs, k, needed), lo, hi)
    ensures var b := Carve(bs, k, needed)[k];
            b.used && b.start == bs[k].start && needed <= b.size <= needed + HEADER + MIN_BLOCK - 16
  {
    TiledCut(bs, lo, hi, k);
    TiledCut(bs, lo, hi, k + 1);
    var mid, mid' := Bound(bs, lo, k), Bound(bs, lo, k + 1);
    assert Placed(bs, lo, k);
    var parts := Split(bs[k], needed);
    assert Placed(parts, mid, 0) && (|parts| == 2 ==> Placed(parts, mid, 1));
    assert Tiled(parts, mid, mid');
    TiledConcat(bs[..k], parts, lo, mid, mid');
    TiledConcat(bs[..k] + parts, bs[k + 1..], lo, mid', hi);
  }

  // ---------------------------------------------------------------------------
  // Coalescing
  // ---------------------------------------------------------------------------

  function Glue(a: Block, b: Block): Block {
    Block(a.start, a.size + HEADER + b.size, false)
  }

  function Merge(bs: seq<Block>): seq<Block>
    decreases |bs|
  {
    if |bs| < 2 then bs
    else if !bs[0].used && !bs[1].used then Merge([Glue(bs[0], bs[1])] + bs[2..])
    else [bs[0]] + Merge(bs[1..])
  }

  ghost predicate NoAdjacentFree(bs: seq<Block>) {
    forall k {:trigger bs[k]} :: 0 < k < |bs| ==> bs[k - 1].used || bs[k].used
  }

  function UsedOf(bs: seq<Block>): seq<Block> {
    if bs == [] then [] else (if bs[0].used then [bs[0]] else []) + UsedOf(bs[1..])
  }

  lemma GlueTiled(bs: seq<Block>, lo: nat, hi: nat)
    requires Tiled(bs, lo, hi) && 2 <= |bs|
    ensures Tiled([Glue(bs[0], bs[1])] + bs[2..], lo, hi)
  {
    TiledCut(bs, lo, hi, 2);
    assert Placed(bs, lo, 0) && Placed(bs, lo, 1);
    assert Tiled([Glue(bs[0], bs[1])], lo, Bound(bs, lo, 2));
    TiledConcat([Glue(bs[0], bs[1])], bs[2..], lo, Bound(bs, lo, 2), hi);
  }

  /** Coalescing keeps the tiling and every used block, and leaves no two free neighbours. */
  lemma {:induction false} Merged(bs: seq<Block>, lo: nat, hi: nat)
    requires Tiled(bs, lo, hi)
    ensures Tiled(Merge(bs), lo, hi) && NoAdjacentFree(Merge(bs))
    ensures UsedOf(Merge(bs)) == UsedOf(bs)
    ensures |Merge(bs)| <= |bs| && (bs != [] ==> Merge(bs) != [] && Merge(bs)[0].used == bs[0].used)
    decreases |bs|
  {
    if |bs| < 2 {
    } else if !bs[0].used && !bs[1].used {
      var next := [Glue(bs[0], bs[1])] + bs[2..];
      GlueTiled(bs, lo, hi);
      Merged(next, lo, hi);
      assert next[1..] == bs[2..] && bs[1..][1..] == bs[2..];
    } else {
      TiledCut(bs, lo, hi, 1);
      var mid := Bound(bs, lo, 1);
      Merged(bs[1..], mid, hi);
      assert Tiled([bs[0]], lo, mid) by { assert Placed(bs, lo, 0); }
      TiledConcat([bs[0]], Merge(bs[1..]), lo, mid, hi);
      assert ([bs[0]] + Merge(bs[1..]))[1..] == Merge(bs[1..]);
    }
  }

  /** Used blocks are found in `UsedOf`, and nothing else is. */
  lemma {:induction false} UsedOfMembers(bs: seq<Block>, b: Block)
    ensures b in UsedOf(bs) <==> b in bs && b.used
  {
    if bs != [] {
      UsedOfMembers(bs[1..], b);
      assert bs == [bs[0]] + bs[1..];
    }
  }

  // ---------------------------------------------------------------------------
  // Room: runs of adjacent free blocks, headers counted
  // ---------------------------------------------------------------------------

  ghost predicate AllFree(bs: seq<Block>, i: nat, j: nat) {
    i <= j < |bs| && forall k :: i <= k <= j ==> !bs[k].used
  }

  /** The free blocks i..j, merged, would hold `needed` bytes. */
  ghost predicate Run(bs: seq<Block>, needed: nat, i: nat, j: nat) {
    AllFree(bs, i, j) && bs[i].Payload() + needed <= bs[j].End()
  }

  ghost predicate HasRun(bs: seq<Block>, needed: nat) {
    exists i: nat, j: nat :: Run(bs, needed, i, j)
  }

  lemma GlueRuns(bs: seq<Block>, lo: nat, hi: nat, needed: nat)
    requires Tiled(bs, lo, hi) && 2 <= |bs| && !bs[0].used && !bs[1].used
    ensures HasRun([Glue(bs[0], bs[1])] + bs[2..], needed) <==> HasRun(bs, needed)
  {
    var next := [Glue(bs[0], bs[1])] + bs[2..];
    assert Placed(bs, lo, 1);
    assert forall k :: 0 < k < |next| ==> next[k] == bs[k + 1];
    if HasRun(bs, needed) {
      var i: nat, j: nat :| Run(bs, needed, i, j);
      var i' := if i == 0 then 0 else i - 1;
      var j' := if j == 0 then 0 else j - 1;
      assert Run(next, needed, i', j');
    }
    if HasRun(next, needed) {
      var i: nat, j: nat :| Run(next, needed, i, j);
      var i' := if i == 0 then 0 else i + 1;
      forall k | i' <= k <= j + 1
        ensures !bs[k].used
      {
        if 1 < k { assert !next[k - 1].used; }
      }
      assert Run(bs, needed, i', j + 1);
    }
  }

  /** A head that cannot join its neighbour adds its own payload and nothing more. */
  lemma ConsRuns(b: Block, bs: seq<Block>, needed: nat)
    requires b.used || bs == [] || bs[0].used
    ensures HasRun([b] + bs, needed) <==> Fits(b, needed) || HasRun(bs, needed)
  {
    var all := [b] + bs;
    assert all[0] == b && (bs != [] ==> all[1] == bs[0]);
    if HasRun(all, needed) {
      var i: nat, j: nat :| Run(all, needed, i, j);
      if 0 < i {
        forall k | i - 1 <= k <= j - 1 ensures !bs[k].used { assert !all[k + 1].used; }
        assert Run(bs, needed, i - 1, j - 1);
      }
    }
    if Fits(b, needed) {
      assert Run(all, needed, 0, 0);
    }
    if HasRun(bs, needed) {
      var i: nat, j: nat :| Run(bs, needed, i, j);
      assert Run(all, needed, i + 1, j + 1);
    }
  }

  /** After coalescing some block fits exactly when some run did before. */
  lemma {:induction false} MergeRoom(bs: seq<Block>, lo: nat, hi: nat, needed: nat)
    requires Tiled(bs, lo, hi)
    ensures NoFit(Merge(bs), needed) <==> !HasRun(bs, needed)
    decreases |bs|
  {
    if |bs| < 2 {
      if bs != [] { ConsRuns(bs[0], [], needed); assert [bs[0]] + [] == bs; }
    } else if !bs[0].used && !bs[1].used {
      GlueTiled(bs, lo, hi);
      GlueRuns(bs, lo, hi, needed);
      MergeRoom([Glue(bs[0], bs[1])] + bs[2..], lo, hi, needed);
    } else {
      TiledCut(bs, lo, hi, 1);
      var rest := Merge(bs[1..]);
      MergeRoom(bs[1..], Bound(bs, lo, 1), hi, needed);
      assert [bs[0]] + bs[1..] == bs;
      ConsRuns(bs[0], bs[1..], needed);
      NoFitCons(bs[0], rest, needed);
    }
  }

  lemma NoFitCons(b: Block, bs: seq<Block>, needed: nat)
    ensures NoFit([b] + bs, needed) <==> !Fits(b, needed) && NoFit(bs, needed)
  {
    if NoFit([b] + bs, needed) {
      assert ([b] + bs)[0] == b;
      forall k | 0 <= k < |bs| ensures !Fits(bs[k], needed) { assert ([b] + bs)[k + 1] == bs[k]; }
    }
  }

  // ---------------------------------------------------------------------------
  // Growth
  // ---------------------------------------------------------------------------

  /** `bytes` more after `hi`: a free tail block is extended, otherwise a new block is chained. */
  function Grow(bs: seq<Block>, hi: nat, bytes: nat): seq<Block>
    requires HEADER <= bytes
  {
    if bs != [] && !bs[|bs| - 1].used
    then bs[..|bs| - 1] + [bs[|bs| - 1].(size := bs[|bs| - 1].size + bytes)]
    else bs + [Block(hi, bytes - HEADER, false)]
  }

  lemma GrowTiled(bs: seq<Block>, lo: nat, hi: nat, bytes: nat)
    requires Tiled(bs, lo, hi) && bytes % 16 == 0 && HEADER + 16 <= bytes && hi % 16 == 0
    ensures Tiled(Grow(bs, hi, bytes), lo, hi + bytes)
  {
    if bs != [] && !bs[|bs| - 1].used {
      var n := |bs| - 1;
      TiledCut(bs, lo, hi, n);
      var b := bs[n].(size := bs[n].size + bytes);
      assert Placed(bs, lo, n);
      assert Tiled([b], Bound(bs, lo, n), hi + bytes);
      TiledConcat(bs[..n], [b], lo, Bound(bs, lo, n), hi + bytes);
    } else {
      TiledConcat(bs, [Block(hi, bytes - HEADER, false)], lo, hi, hi + bytes);
    }
  }

  /** Bytes of the free stretch at the end of the range, its first header included. */
  function TailFree(bs: seq<Block>): nat {
    if bs == [] || bs[|bs| - 1].used then 0
    else TailFree(bs[..|bs| - 1]) + HEADER + bs[|bs| - 1].size
  }

  lemma {:induction false} TailFreeCons(b: Block, bs: seq<Block>)
    requires bs != []
    ensures TailFree([b] + bs) == TailFree(bs) + if AllFree(bs, 0, |bs| - 1) && !b.used then HEADER + b.size else 0
    decreases |bs|
  {
    var n := |bs| - 1;
    var all := [b] + bs;
    assert all[|all| - 1] == bs[n] && all[..|all| - 1] == [b] + bs[..n];
    if !bs[n].used {
      if n == 0 {
        assert [b] + bs[..n] == [b] && [b][..0] == [];
      } else {
        TailFreeCons(b, bs[..n]);
        assert AllFree(bs, 0, n) <==> AllFree(bs[..n], 0, n - 1);
      }
    } else {
      assert !AllFree(bs, 0, n);
    }
  }

  lemma {:induction false} TailFreeGlue(bs: seq<Block>)
    requires 2 <= |bs| && !bs[0].used && !bs[1].used
    ensures TailFree([Glue(bs[0], bs[1])] + bs[2..]) == TailFree(bs)
    decreases |bs|
  {
    var n := |bs| - 1;
    var next := [Glue(bs[0], bs[1])] + bs[2..];
    if n == 1 {
      assert next == [Glue(bs[0], bs[1])] && next[..0] == [];
      assert bs[..1][..0] == [] && bs[..1][0] == bs[0];
    } else {
      assert next[|next| - 1] == bs[n];
      assert next[..|next| - 1] == [Glue(bs[..n][0], bs[..n][1])] + bs[..n][2..];
      TailFreeGlue(bs[..n]);
    }
  }

  lemma {:induction false} TailFreeMerge(bs: seq<Block>, lo: nat, hi: nat)
    requires Tiled(bs, lo, hi)
    ensures TailFree(Merge(bs)) == TailFree(bs)
    ensures bs != [] ==> Merge(bs) != [] && (AllFree(Merge(bs), 0, |Merge(bs)| - 1) <==> AllFree(bs, 0, |bs| - 1))
    decreases |bs|
  {
    Merged(bs, lo, hi);
    if |bs| < 2 {
    } else if !bs[0].used && !bs[1].used {
      var next := [Glue(bs[0], bs[1])] + bs[2..];
      GlueTiled(bs, lo, hi);
      TailFreeGlue(bs);
      TailFreeMerge(next, lo, hi);
      Merged(next, lo, hi);
      GlueAllFree(bs);
    } else {
      TiledCut(bs, lo, hi, 1);
      var rest := Merge(bs[1..]);
      Merged(bs[1..], Bound(bs, lo, 1), hi);
      TailFreeMerge(bs[1..], Bound(bs, lo, 1), hi);
      TailFreeCons(bs[0], bs[1..]);
      assert [bs[0]] + bs[1..] == bs;
      TailFreeCons(bs[0], rest);
      ConsAllFree(bs[0], bs[1..]);
      ConsAllFree(bs[0], rest);
    }
  }

  lemma GlueAllFree(bs: seq<Block>)
    requires 2 <= |bs| && !bs[0].used && !bs[1].used
    ensures var next := [Glue(bs[0], bs[1])] + bs[2..]; AllFree(next, 0, |next| - 1) <==> AllFree(bs, 0, |bs| - 1)
  {
    var next := [Glue(bs[0], bs[1])] + bs[2..];
    if AllFree(next, 0, |next| - 1) {
      forall k | 0 <= k <= |bs| - 1 ensures !bs[k].used { if 1 < k { assert !next[k - 1].used; } }
    }
    if AllFree(bs, 0, |bs| - 1) {
      forall k | 0 <= k <= |next| - 1 ensures !next[k].used { if 0 < k { assert !bs[k + 1].used; } }
    }
  }

  lemma ConsAllFree(b: Block, bs: seq<Block>)
    requires bs != []
    ensures AllFree([b] + bs, 0, |bs|) <==> !b.used && AllFree(bs, 0, |bs| - 1)
  {
    var all := [b] + bs;
    if AllFree(all, 0, |bs|) {
      assert !all[0].used;
      forall k | 0 <= k <= |bs| - 1 ensures !bs[k].used { assert !all[k + 1].used; }
    }
  }

  /** Growing a coalesced list that had no fit makes room exactly when the free tail and the new
      bytes together hold the request and one header. */
  lemma GrowRoom(bs: seq<Block>, hi: nat, bytes: nat, needed: nat)
    requires NoAdjacentFree(bs) && NoFit(bs, needed) && HEADER <= bytes
    ensures NoFit(Grow(bs, hi, bytes), needed) <==> TailFree(bs) + bytes < needed + HEADER
  {
    var n := |bs| - 1;
    var grown := Grow(bs, hi, bytes);
    if bs != [] && !bs[n].used {
      assert TailFree(bs[..n]) == 0 by {
        if 0 < n { assert bs[..n][n - 1] == bs[n - 1]; }
      }
      assert grown[n] == bs[n].(size := bs[n].size + bytes);
      assert forall k :: 0 <= k < n ==> grown[k] == bs[k];
    } else {
      assert grown[|bs|] == Block(hi, bytes - HEADER, false);
      assert forall k :: 0 <= k < |bs| ==> grown[k] == bs[k];
    }
  }
}
