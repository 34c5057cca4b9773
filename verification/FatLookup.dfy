/** Looking a name up in a directory, with the place of its long-name slots for deletion. */
module FatLookup {
  import opened Options
  import opened FatDisk
  import opened FatNames

  /** The 8.3 slot, and where and how long the run of long-name slots before it is. */
  datatype Found = Found(index: nat, start: nat, count: nat)

  datatype Search = Search(stop: bool, found: Option<Found>, name: Name, expected: int, start: nat, count: nat)

  function Fold(c: nat): nat {
    if 0x41 <= c <= 0x5A then c + 32 else c
  }

  predicate SameName(a: Name, b: Name) {
    |a| == |b| && forall i :: 0 <= i < |a| ==> Fold(a[i]) == Fold(b[i])
  }

  function Forgotten(s: Search): Search {
    s.(name := [], expected := 0, start := 0, count := 0)
  }

  function LongStep(s: Search, slot: Slot, i: nat): Search {
    var ord := slot[0] % 0x20;
    var s1 := if slot[0] / 0x40 % 2 == 1 then s.(name := [], expected := ord, start := i, count := ord) else s;
    if ord == s1.expected then s1.(name := Segment(slot, 0) + s1.name, expected := s1.expected - 1) else s1
  }

  function LookStep(s: Search, slot: Slot, i: nat, component: Name): Search {
    if s.stop || s.found.Some? then s
    else if slot[0] == 0 then s.(stop := true)
    else if slot[0] == DELETED then Forgotten(s)
    else if IsLfn(slot) then LongStep(s, slot, i)
    else if SameName(if s.name != [] then s.name else ShortName(slot), component)
    then s.(found := Some(Found(i, s.start, s.count)))
    else Forgotten(s)
  }

  /** The search through `dir`, whose first slot is slot `i` of the directory. */
  function Look(s: Search, dir: Dir, i: nat, component: Name): Search
    decreases |dir|
  {
    if dir == [] then s else Look(LookStep(s, dir[0], i, component), dir[1..], i + 1, component)
  }

  const BEGIN: Search := Search(false, None, [], 0, 0, 0)

  function Lookup(dir: Dir, component: Name): Option<Found> {
    Look(BEGIN, dir, 0, component).found
  }

  lemma {:induction false} LookConcat(s: Search, a: Dir, b: Dir, i: nat, component: Name)
    ensures Look(s, a + b, i, component) == Look(Look(s, a, i, component), b, i + |a|, component)
    decreases |a|
  {
    if a == [] {
      assert a + b == b;
    } else {
      assert (a + b)[0] == a[0] && (a + b)[1..] == a[1..] + b;
      LookConcat(LookStep(s, a[0], i, component), a[1..], b, i + 1, component);
    }
  }

  lemma {:induction false} KeepsFound(s: Search, dir: Dir, i: nat, component: Name)
    requires s.found.Some?
    ensures Look(s, dir, i, component) == s
    decreases |dir|
  {
    if dir != [] { KeepsFound(s, dir[1..], i + 1, component); }
  }

  lemma {:induction false} KeepsLooking(s: Search, dir: Dir, i: nat, component: Name)
    requires !s.stop && forall k :: 0 <= k < |dir| ==> dir[k][0] != 0
    ensures !Look(s, dir, i, component).stop
    decreases |dir|
  {
    hide Segment, ShortName, SameName, IsLfn;
    if dir != [] { KeepsLooking(LookStep(s, dir[0], i, component), dir[1..], i + 1, component); }
  }

  /** After the first `i` segments, of which the first one stood at `at`. */
  ghost predicate Gathering(s: Search, name: Name, i: nat, at: nat) {
    && i <= LfnCount(name) && !s.stop && s.found.None?
    && (0 < i ==>
          && s.expected == LfnCount(name) - i && s.start == at && s.count == LfnCount(name)
          && s.name == name[Least(|name|, (LfnCount(name) - i) * UNITS)..])
  }

  lemma GatherStep(s: Search, name: Name, checksum: Byte, i: nat, at: nat, component: Name)
    requires Plain(name) && i < LfnCount(name) <= 20 && Gathering(s, name, i, at)
    ensures Gathering(LookStep(s, LfnSlot(name, LfnCount(name) - i, i == 0, checksum), at + i, component),
                      name, i + 1, at)
  {
    hide LfnSlot, Segment, Piece, IsLfn, LfnCount, SameName;
    var num := LfnCount(name) - i;
    SlotMarks(name, num, i == 0, checksum);
    SegmentIs(name, num, i == 0, checksum, 0);
    PiecesJoin(name, num, i, if i == 0 then [] else s.name);
  }

  lemma {:induction false} GatherAll(s: Search, name: Name, checksum: Byte, i: nat, at: nat, component: Name)
    requires Plain(name) && i <= LfnCount(name) && Gathering(s, name, i, at)
    ensures Gathering(Look(s, Segments(name, checksum, i), at + i, component), name, LfnCount(name), at)
    decreases LfnCount(name) - i
  {
    hide LfnSlot, LookStep, Gathering, LfnCount;
    CountFits(name);
    if i < LfnCount(name) {
      GatherStep(s, name, checksum, i, at, component);
      var s1 := LookStep(s, LfnSlot(name, LfnCount(name) - i, i == 0, checksum), at + i, component);
      GatherAll(s1, name, checksum, i + 1, at, component);
      assert Segments(name, checksum, i)[1..] == Segments(name, checksum, i + 1);
    }
  }

  /** The new name is found at its own slots when the directory did not have it before. */
  lemma LookupNew(dir: Dir, p: nat, name: Name, short: seq<Byte>, attr: Byte, cluster: nat, size: nat)
    requires Plain(name) && ShortOk(short, attr) && cluster < WORD_LIMIT && size < WORD_LIMIT
    requires p <= EndOf(dir) && p + LfnCount(name) + 1 <= |dir| && Lookup(dir, name) == None
    ensures |Set(name, short, attr, cluster, size)| == LfnCount(name) + 1
    ensures Lookup(Replace(dir, p, Set(name, short, attr, cluster, size)), name) ==
            Some(Found(p + LfnCount(name), p, LfnCount(name)))
  {
    hide Look, ShortSlot, Segments, Gathering, EndOf;
    SetSize(name, short, attr, cluster, size);
    var n, front := LfnCount(name), dir[..p];
    var segments, slot := Segments(name, Checksum(short), 0), ShortSlot(short, attr, cluster, size);
    var back := dir[p + n + 1..];
    KeepsLooking(BEGIN, front, 0, name);
    var s := Look(BEGIN, front, 0, name);
    NotYet(dir, p, name);
    StartGathering(s, name, p);
    GatherAll(s, name, Checksum(short), 0, p, name);
    var s1 := Look(s, segments, p, name);
    SegmentCount(name, Checksum(short), 0);
    FoundHere(s1, name, short, attr, cluster, size, p, back);
    assert Replace(dir, p, Set(name, short, attr, cluster, size)) == front + (segments + ([slot] + back));
    LookConcat(BEGIN, front, segments + ([slot] + back), 0, name);
    LookConcat(s, segments, [slot] + back, p, name);
  }

  lemma NotYet(dir: Dir, p: nat, name: Name)
    requires p <= |dir| && Lookup(dir, name) == None
    ensures Look(BEGIN, dir[..p], 0, name).found == None
  {
    var s := Look(BEGIN, dir[..p], 0, name);
    assert dir == dir[..p] + dir[p..];
    LookConcat(BEGIN, dir[..p], dir[p..], 0, name);
    if s.found.Some? { KeepsFound(s, dir[p..], p, name); }
  }

  lemma StartGathering(s: Search, name: Name, at: nat)
    requires !s.stop && s.found.None?
    ensures Gathering(s, name, 0, at)
  {
  }

  lemma FoundHere(s: Search, name: Name, short: seq<Byte>, attr: Byte, cluster: nat, size: nat, p: nat, back: Dir)
    requires Plain(name) && ShortOk(short, attr) && cluster < WORD_LIMIT && size < WORD_LIMIT
    requires Gathering(s, name, LfnCount(name), p)
    ensures Look(s, [ShortSlot(short, attr, cluster, size)] + back, p + LfnCount(name), name).found ==
            Some(Found(p + LfnCount(name), p, LfnCount(name)))
  {
    hide ShortSlot, ShortName, IsLfn;
    CountFits(name);
    ShortSlotReads(short, attr, cluster, size);
    var slot := ShortSlot(short, attr, cluster, size);
    var dir := [slot] + back;
    assert s.name == name;
    assert dir[0] == slot && dir[1..] == back;
    var s1 := LookStep(s, slot, p + LfnCount(name), name);
    KeepsFound(s1, back, p + LfnCount(name) + 1, name);
  }

  /** Creating a name and unlinking what lookup then finds leaves the listing as it was, unless creating it
      brought old entries back. */
  lemma CreateUnlink(dir: Dir, p: nat, name: Name, short: seq<Byte>, attr: Byte, cluster: nat, size: nat)
    requires Plain(name) && ShortOk(short, attr) && cluster < WORD_LIMIT && size < WORD_LIMIT
    requires FreeRun(dir, p, LfnCount(name) + 1) && Lookup(dir, name) == None
    ensures |Set(name, short, attr, cluster, size)| == LfnCount(name) + 1
    ensures var created := Replace(dir, p, Set(name, short, attr, cluster, size));
            var found := Lookup(created, name);
            && found.Some? && found.value.index == found.value.start + found.value.count < |created|
            && (List(EraseRun(created, found.value.start, found.value.count + 1)) == List(dir) <==>
                !Uncovers(dir, p, LfnCount(name) + 1))
  {
    hide Lookup, List, Set, EndOf;
    SetSize(name, short, attr, cluster, size);
    LookupNew(dir, p, name, short, attr, cluster, size);
    UnlinkRestores(dir, p, name, short, attr, cluster, size);
  }
}
