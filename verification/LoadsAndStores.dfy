/** What loads return, told from the history of the run alone: the last store to the same word, by the process
    or by the ancestor it was forked from before the fork, and zero in a demand region nobody has stored to.
 */
module LoadsAndStores {
  import opened Options
  import opened PhysicalMemory
  import opened PageTables
  import opened Mapping
  import opened TableCopy
  import opened CopyOnWrite
  import opened AddressSpaces

  // ---------------------------------------------------------------------------
  // One store, one fork, one first touch
  // ---------------------------------------------------------------------------

  /** A load sees the store before it, and every other word reads as before. */
  lemma StoreThenLoad(w: World, id: nat, va: nat, i: nat, x: Word, id': nat, va': nat, j: nat)
    requires id in w && id' in w && i < WORDS && j < WORDS && EagerWrite(w, id, va, i, x).1.Done?
    ensures EagerRead(EagerWrite(w, id, va, i, x).0, id', va', j).1 ==
            if (id', va', j) == (id, va, i) then Value(x) else EagerRead(w, id', va', j).1
  {
  }

  /** Child and parent read what the parent read; everyone else reads as before. */
  lemma ForkThenLoad(w: World, parent: nat, child: nat, id: nat, va: nat, i: nat)
    requires parent in w && (id in w || id == child) && i < WORDS
    ensures EagerRead(EagerFork(w, parent, child), id, va, i).1 ==
            EagerRead(w, if id == child then parent else id, va, i).1
  {
  }

  /** A load changes no later load. */
  lemma LoadThenLoad(w: World, id: nat, va: nat, i: nat, id': nat, va': nat, j: nat)
    requires id in w && id' in w && i < WORDS && j < WORDS
    ensures EagerRead(EagerRead(w, id, va, i).0, id', va', j).1 == EagerRead(w, id', va', j).1
  {
  }

  /** A page nobody has touched reads zero in a demand region and faults elsewhere. */
  lemma FirstLoad(w: World, id: nat, va: nat, i: nat)
    requires id in w && i < WORDS && va !in w[id].pages
    ensures EagerRead(w, id, va, i).1 == if InDemand(w[id].regions, va) then Value(ZERO) else Fault
  {
  }

  // ---------------------------------------------------------------------------
  // Histories
  // ---------------------------------------------------------------------------

  /** Process `id` came into being in the first `n` operations. */
  ghost predicate Alive(ops: seq<Op>, obs: seq<Outcome>, n: nat, id: nat)
    requires n <= |ops| == |obs|
  {
    exists k :: 0 <= k < n && obs[k].Done? && (ops[k].Spawn? || ops[k].Fork?) && Born(ops[k]) == id
  }

  function Born(op: Op): nat
    requires op.Spawn? || op.Fork?
  {
    if op.Spawn? then op.id else op.child
  }

  /** The word a load of `id` finds after the first `n` operations, going back to the last one that answered Done
      and concerns it; None where there is nothing to load. */
  ghost function Stored(ops: seq<Op>, obs: seq<Outcome>, n: nat, id: nat, va: nat, i: nat): Option<Word>
    requires n <= |ops| == |obs|
  {
    if n == 0 then None
    else if !obs[n - 1].Done? then Stored(ops, obs, n - 1, id, va, i)
    else
      match ops[n - 1]
      case Spawn(id', regions) =>
        if id' != id then Stored(ops, obs, n - 1, id, va, i) else if InDemand(regions, va) then Some(ZERO) else None
      case Write(id', va', j, x) =>
        if (id', va', j) == (id, va, i) then Some(x) else Stored(ops, obs, n - 1, id, va, i)
      case Fork(parent, child) => Stored(ops, obs, n - 1, if child == id then parent else id, va, i)
      case Read(_, _, _) => Stored(ops, obs, n - 1, id, va, i)
  }

  /** What the history says operation `n` is answered when frames last. */
  ghost function Expected(ops: seq<Op>, obs: seq<Outcome>, n: nat): Outcome
    requires n < |ops| == |obs|
  {
    match ops[n]
    case Spawn(id, _) => if Alive(ops, obs, n, id) then Fault else Done
    case Read(id, va, i) =>
      var word := Stored(ops, obs, n, id, va, i);
      if word.Some? then Value(word.value) else Fault
    case Write(id, va, i, _) => if Stored(ops, obs, n, id, va, i).Some? then Done else Fault
    case Fork(id, child) => if Alive(ops, obs, n, id) && !Alive(ops, obs, n, child) then Done else Fault
  }

  /** What a load would find in the world. */
  ghost function Sees(w: World, id: nat, va: nat, i: nat): Option<Word>
    requires i < WORDS
  {
    if id !in w || Touch(w[id], va).None? then None else Some(Touch(w[id], va).value.pages[va].words[i])
  }

  ghost predicate AllWritable(w: World) {
    forall id, va :: id in w && va in w[id].pages ==> w[id].pages[va].writable
  }

  /** The world after `n` operations is what the history says. */
  ghost predicate Agrees(w: World, ops: seq<Op>, obs: seq<Outcome>, n: nat)
    requires n <= |ops| == |obs|
  {
    && AllWritable(w)
    && (forall id :: id in w <==> Alive(ops, obs, n, id))
    && (forall id, va, i :: 0 <= i < WORDS ==> Sees(w, id, va, i) == Stored(ops, obs, n, id, va, i))
  }

  lemma AliveStep(ops: seq<Op>, obs: seq<Outcome>, n: nat, id: nat)
    requires n < |ops| == |obs|
    ensures Alive(ops, obs, n + 1, id) <==>
            || Alive(ops, obs, n, id)
            || (obs[n].Done? && (ops[n].Spawn? || ops[n].Fork?) && Born(ops[n]) == id)
  {
  }

  lemma SeesStep(w: World, op: Op, id: nat, va: nat, i: nat)
    requires WellFormed(op) && i < WORDS
    ensures var (w', o) := WorldStep(w, op);
            Sees(w', id, va, i) ==
            if !o.Done? then Sees(w, id, va, i)
            else
              match op
              case Spawn(id', regions) =>
                if id' != id then Sees(w, id, va, i) else if InDemand(regions, va) then Some(ZERO) else None
              case Write(id', va', j, x) => if (id', va', j) == (id, va, i) then Some(x) else Sees(w, id, va, i)
              case Fork(parent, child) => Sees(w, if child == id then parent else id, va, i)
              case Read(_, _, _) => Sees(w, id, va, i)
  {
    hide InDemand;
  }

  lemma WritableStep(w: World, op: Op)
    requires WellFormed(op) && AllWritable(w)
    ensures AllWritable(WorldStep(w, op).0)
  {
    hide InDemand;
  }

  lemma OutcomeStep(w: World, ops: seq<Op>, obs: seq<Outcome>, n: nat)
    requires n < |ops| == |obs| && WellFormed(ops[n]) && Agrees(w, ops, obs, n)
    ensures WorldStep(w, ops[n]).1 == Expected(ops, obs, n)
  {
    hide InDemand, Alive, Stored;
    var op := ops[n];
    if op.Read? || op.Write? {
      assert Sees(w, op.id, op.va, op.i) == Stored(ops, obs, n, op.id, op.va, op.i);
    }
  }

  lemma AgreesStep(w: World, ops: seq<Op>, obs: seq<Outcome>, n: nat)
    requires n < |ops| == |obs| && WellFormed(ops[n]) && Agrees(w, ops, obs, n) && obs[n] == WorldStep(w, ops[n]).1
    ensures Agrees(WorldStep(w, ops[n]).0, ops, obs, n + 1)
  {
    hide InDemand, Alive, Sees;
    var w' := WorldStep(w, ops[n]).0;
    assert AllWritable(w') by { WritableStep(w, ops[n]); }
    forall id
      ensures id in w' <==> Alive(ops, obs, n + 1, id)
    {
      AliveStep(ops, obs, n, id);
    }
    forall id, va, i | 0 <= i < WORDS
      ensures Sees(w', id, va, i) == Stored(ops, obs, n + 1, id, va, i)
    {
      SeesStep(w, ops[n], id, va, i);
    }
  }

  lemma AgreesRefused(w: World, ops: seq<Op>, obs: seq<Outcome>, n: nat)
    requires n < |ops| == |obs| && Agrees(w, ops, obs, n) && !obs[n].Done?
    ensures Agrees(w, ops, obs, n + 1)
  {
    hide Sees, Alive;
    forall id
      ensures id in w <==> Alive(ops, obs, n + 1, id)
    {
      AliveStep(ops, obs, n, id);
    }
  }

  /** Every run from the empty machine, short of frames or not: each operation is answered as the history says, or
      with a fault the free frames called for. */
  lemma {:induction false} HistoryTells(snaps: seq<Snapshot>, ops: seq<Op>, obs: seq<Outcome>, n: nat)
    requires Explained(snaps, ops, obs) && snaps[0].roots == map[] && snaps[0].regions == map[] && n <= |ops|
    ensures snaps[n].roots.Keys == snaps[n].regions.Keys && Agrees(WorldIn(snaps[n]), ops, obs, n)
    ensures forall k :: 0 <= k < n ==>
              obs[k] == if Starves(snaps[k], ops[k]) then Fault else Expected(ops, obs, k)
    decreases n
  {
    hide WorldIn, WorldStep, Starves, Breaks, WellFormed, Agrees;
    if n == 0 {
      EmptyAgrees(snaps[0], ops, obs);
    } else {
      HistoryTells(snaps, ops, obs, n - 1);
      assert Answers(snaps[n - 1], ops[n - 1], obs[n - 1], snaps[n]);
      var w := WorldIn(snaps[n - 1]);
      if Starves(snaps[n - 1], ops[n - 1]) {
        AgreesRefused(w, ops, obs, n - 1);
      } else {
        OutcomeStep(w, ops, obs, n - 1);
        AgreesStep(w, ops, obs, n - 1);
      }
    }
  }

  lemma EmptyAgrees(v: Snapshot, ops: seq<Op>, obs: seq<Outcome>)
    requires v.roots == map[] && v.regions == map[] && |ops| == |obs|
    ensures Agrees(WorldIn(v), ops, obs, 0)
  {
  }

  // ---------------------------------------------------------------------------
  // In place
  // ---------------------------------------------------------------------------

  /** A machine started on `pa` answers every run as its history says. */
  method RunFromBoot(pa: PhysicalAllocator, ops: seq<Op>) returns (obs: seq<Outcome>, ghost snaps: seq<Snapshot>)
    requires pa.Valid() && forall k :: 0 <= k < |ops| ==> WellFormed(ops[k])
    modifies pa
    ensures |obs| <= |ops| && |snaps| == |obs| + 1
    ensures |obs| < |ops| ==> Breaks(snaps[|obs|], ops[|obs|])
    ensures forall k :: 0 <= k < |obs| ==>
              obs[k] == if Starves(snaps[k], ops[k]) then Fault else Expected(ops[..|obs|], obs, k)
  {
    hide Breaks, Starves, WellFormed, Expected, Agrees;
    var sp := new Spaces(pa);
    NoProcess(sp);
    obs, snaps := sp.Run(ops);
    HistoryTells(snaps, ops[..|obs|], obs, |obs|);
  }

  lemma NoProcess(sp: Spaces)
    requires sp.Valid() && sp.World() == map[]
    ensures sp.roots == map[] && sp.regions == map[]
  {
    hide Inv, Pages;
    assert forall id :: id in sp.roots ==> id in sp.World();
    assert sp.roots.Keys == {} && sp.regions.Keys == {};
  }

  /** A store that was done is what the next load returns: the page is there, so frames do not matter. */
  method StoreLoad(sp: Spaces, id: nat, va: nat, i: nat, x: Word) returns (stored: Option<Outcome>, r: Option<Outcome>)
    requires sp.Valid() && id in sp.roots && PageVa(va) && i < WORDS
    modifies sp, sp.pa
    ensures stored == Some(Done) ==> r == Some(Value(x))
  {
    hide Inv, PageVa, WorldOf, Missing, L, InDemand, Breaks, Starves;
    ghost var w := sp.World();
    InReference(Now(sp.pa, sp.t), sp.roots, sp.regions);
    stored := sp.WriteWord(id, va, i, x);
    if stored != Some(Done) {
      return stored, None;
    }
    StoreThenLoad(w, id, va, i, x, id, va, i);
    assert va in sp.World()[id].pages;
    PresentNeverStarves(sp, id, va, i);
    r := sp.ReadWord(id, va, i);
  }

  lemma PresentNeverStarves(sp: Spaces, id: nat, va: nat, i: nat)
    requires sp.Valid() && id in sp.roots && id in sp.World() && va in sp.World()[id].pages && PageVa(va) && i < WORDS
    ensures !Starves(sp.Snap(), Read(id, va, i)) && !Breaks(sp.Snap(), Read(id, va, i))
  {
    hide Inv, L, InDemand;
    assert Present(Now(sp.pa, sp.t), id, va);
  }
}
