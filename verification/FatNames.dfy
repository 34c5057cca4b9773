/** Directory slots of 32 bytes: long names spread over several slots, the short entry behind them, and
    the scan that lists a directory.

    Follows section 7 of the Microsoft FAT32 specification as the driver implements it.
 */
module FatNames {
  import opened Options
  import opened FatDisk

  const SLOT: nat := 32
  const UNITS: nat := 13
  const DELETED: Byte := 0xE5
  const SPACE: Byte := 0x20
  const DOT: Byte := 0x2E

  type Slot = s: seq<Byte> | |s| == SLOT witness seq(SLOT, _ => 0)

  /** A name is a sequence of character codes. */
  type Name = seq<nat>

  /** Names the theorem covers: NUL-free ASCII, 1 to 255 characters. */
  ghost predicate Plain(name: Name) {
    1 <= |name| <= 255 && forall i :: 0 <= i < |name| ==> 0 < name[i] < 0x80
  }

  // ---------------------------------------------------------------------------
  // Writing a set of slots
  // ---------------------------------------------------------------------------

  function LfnCount(name: Name): nat {
    (|name| + 12) / UNITS
  }

  /** Unit `j` of segment `num`: the name, one terminator, then padding. */
  function Unit(name: Name, num: nat, j: nat): nat
    requires 1 <= num
  {
    var i := (num - 1) * UNITS + j;
    if i < |name| then name[i] else if i == |name| then 0 else 0xFFFF
  }

  /** The 16-bit unit stored in slot byte `i`, for the bytes that hold units. */
  function UnitIndex(i: nat): Option<nat> {
    if 1 <= i < 11 then Some((i - 1) / 2)
    else if 14 <= i < 26 then Some(5 + (i - 14) / 2)
    else if 28 <= i < 32 then Some(11 + (i - 28) / 2)
    else None
  }

  /** True when byte `i` is the low half of its unit. */
  function IsLow(i: nat): bool {
    if i < 14 then i % 2 == 1 else i % 2 == 0
  }

  function LfnByte(name: Name, num: nat, last: bool, checksum: Byte, i: nat): Byte
    requires 1 <= num < 0x20 && forall k :: 0 <= k < |name| ==> name[k] < 0x1_0000
  {
    match UnitIndex(i)
    case Some(j) => var u := Unit(name, num, j); if IsLow(i) then u % 0x100 else u / 0x100
    case None =>
      if i == 0 then (if last then num + 0x40 else num)
      else if i == 11 then 0x0F
      else if i == 13 then checksum
      else 0
  }

  /** One long-name slot. */
  function LfnSlot(name: Name, num: nat, last: bool, checksum: Byte): Slot
    requires 1 <= num < 0x20 && forall k :: 0 <= k < |name| ==> name[k] < 0x1_0000
  {
    seq(SLOT, i requires 0 <= i < SLOT => LfnByte(name, num, last, checksum, i))
  }

  /** Checksum of the short name: rotate right and add, modulo 256. */
  function Checksum(short: seq<Byte>): Byte {
    if short == [] then 0
    else
      var sum := Checksum(short[..|short| - 1]);
      (sum % 2 * 0x80 + sum / 2 + short[|short| - 1]) % 0x100
  }

  /** The 8.3 slot. */
  function ShortSlot(short: seq<Byte>, attr: Byte, cluster: nat, size: nat): Slot
    requires |short| == 11 && cluster < WORD_LIMIT && size < WORD_LIMIT
  {
    short + [attr, 0, 0, 0, 0, 0, 0, 0, 0] +
    [cluster / 0x1_0000 % 0x100, cluster / 0x100_0000, 0, 0, 0, 0, cluster % 0x100, cluster / 0x100 % 0x100] +
    [size % 0x100, size / 0x100 % 0x100, size / 0x1_0000 % 0x100, size / 0x100_0000]
  }

  /** A short name that scans as an ordinary entry. */
  predicate ShortOk(short: seq<Byte>, attr: Byte) {
    |short| == 11 && short[0] != 0 && short[0] != DELETED && short[0] != DOT && attr != 0x08 && attr % 0x40 != 0x0F
  }

  // ---------------------------------------------------------------------------
  // Scanning
  // ---------------------------------------------------------------------------

  /** What `list_dir` reports of one entry. */
  datatype Listed = Listed(name: Name, isDir: bool, size: nat, cluster: nat)

  /** The scan: stopped at a zero slot, the long name gathered so far, the ordinal expected next. */
  datatype Scan = Scan(done: bool, name: Name, expected: int, out: seq<Listed>)

  function UnitAt(slot: Slot, j: nat): nat
    requires j < UNITS
  {
    var i := UnitStart(j);
    (slot[i] as nat) + 0x100 * (slot[i + 1] as nat)
  }

  /** UTF-16 unit to character; lone surrogates become the replacement character. */
  function CharOf(unit: nat): nat {
    if 0xD800 <= unit < 0xE000 then 0xFFFD else unit
  }

  /** Characters of a slot from unit `j` on, up to a terminator or padding. */
  function Segment(slot: Slot, j: nat): Name
    requires j <= UNITS
    decreases UNITS - j
  {
    if j == UNITS || UnitAt(slot, j) == 0 || UnitAt(slot, j) == 0xFFFF then []
    else [CharOf(UnitAt(slot, j))] + Segment(slot, j + 1)
  }

  function Lower(c: Byte): nat {
    if 0x41 <= c <= 0x5A then c + 32 else c
  }

  /** Bytes [i, end) of the short name up to the first space, lower-cased on request. */
  function ShortPart(slot: Slot, i: nat, end: nat, lower: bool): Name
    requires i <= end <= 11
    decreases end - i
  {
    if i == end || slot[i] == SPACE then []
    else [if lower then Lower(slot[i]) else slot[i] as nat] + ShortPart(slot, i + 1, end, lower)
  }

  function ShortName(slot: Slot): Name {
    ShortPart(slot, 0, 8, slot[12] / 8 % 2 == 1) +
    (if slot[8] != SPACE then [DOT as nat] + ShortPart(slot, 8, 11, slot[12] / 16 % 2 == 1) else [])
  }

  predicate IsDot(slot: Slot) {
    slot[0] == DOT && forall i :: 1 <= i < 11 ==> slot[i] == SPACE || slot[i] == DOT
  }

  predicate IsLfn(slot: Slot) {
    slot[11] % 0x40 == 0x0F
  }

  function ClusterOf(slot: Slot): nat {
    (slot[26] as nat) + 0x100 * (slot[27] as nat) + 0x1_0000 * ((slot[20] as nat) + 0x100 * (slot[21] as nat))
  }

  function Cleared(s: Scan): Scan {
    s.(name := [], expected := 0)
  }

  function LfnStep(s: Scan, slot: Slot): Scan {
    var ord := slot[0] % 0x20;
    var s1 := if slot[0] / 0x40 % 2 == 1 then s.(name := [], expected := ord) else s;
    if ord == s1.expected then s1.(name := Segment(slot, 0) + s1.name, expected := s1.expected - 1) else s1
  }

  function EntryOf(s: Scan, slot: Slot): Listed {
    Listed(if s.name != [] then s.name else ShortName(slot), slot[11] / 0x10 % 2 == 1, Word(slot, 28), ClusterOf(slot))
  }

  function Step(s: Scan, slot: Slot): Scan {
    if s.done then s
    else if slot[0] == 0 then s.(done := true)
    else if slot[0] == DELETED || slot[11] == 0x08 then Cleared(s)
    else if IsLfn(slot) then LfnStep(s, slot)
    else if IsDot(slot) then Cleared(s)
    else Cleared(s.(out := s.out + [EntryOf(s, slot)]))
  }

  /** The directory as a sequence of slots. */
  type Dir = seq<Slot>

  function ScanFrom(s: Scan, dir: Dir): Scan
    decreases |dir|
  {
    if dir == [] then s else ScanFrom(Step(s, dir[0]), dir[1..])
  }

  const START: Scan := Scan(false, [], 0, [])

  function List(dir: Dir): seq<Listed> {
    ScanFrom(START, dir).out
  }

  // ---------------------------------------------------------------------------
  // Decoding undoes encoding
  // ---------------------------------------------------------------------------

  /** Slot byte that starts unit `j`. */
  function UnitStart(j: nat): nat {
    if j < 5 then 1 + 2 * j else if j < 11 then 14 + 2 * (j - 5) else 28 + 2 * (j - 11)
  }

  lemma UnitPlace(j: nat)
    requires j < UNITS
    ensures UnitIndex(UnitStart(j)) == Some(j) && UnitIndex(UnitStart(j) + 1) == Some(j)
    ensures IsLow(UnitStart(j)) && !IsLow(UnitStart(j) + 1) && UnitStart(j) + 1 < SLOT
  {
  }

  lemma SlotUnits(name: Name, num: nat, last: bool, checksum: Byte, j: nat)
    requires 1 <= num < 0x20 && j < UNITS && forall k :: 0 <= k < |name| ==> name[k] < 0x1_0000
    ensures UnitAt(LfnSlot(name, num, last, checksum), j) == Unit(name, num, j)
  {
    hide UnitIndex, IsLow, Unit, UnitStart;
    UnitPlace(j);
    var i, u := UnitStart(j), Unit(name, num, j);
    var slot := LfnSlot(name, num, last, checksum);
    assert slot[i] == LfnByte(name, num, last, checksum, i) && slot[i + 1] == LfnByte(name, num, last, checksum, i + 1);
    assert u == u % 0x100 + 0x100 * (u / 0x100);
  }

  function Least(a: nat, b: nat): nat {
    if a < b then a else b
  }

  /** The characters of segment `num`, from its unit `j` on. */
  function Piece(name: Name, num: nat, j: nat): Name
    requires 1 <= num && j <= UNITS
  {
    name[Least(|name|, (num - 1) * UNITS + j)..Least(|name|, num * UNITS)]
  }

  lemma {:induction false} SegmentIs(name: Name, num: nat, last: bool, checksum: Byte, j: nat)
    requires Plain(name) && 1 <= num < 0x20 && j <= UNITS
    ensures Segment(LfnSlot(name, num, last, checksum), j) == Piece(name, num, j)
    decreases UNITS - j
  {
    hide LfnSlot, UnitAt;
    if j < UNITS {
      SlotUnits(name, num, last, checksum, j);
      var i := (num - 1) * UNITS + j;
      if i < |name| {
        SegmentIs(name, num, last, checksum, j + 1);
        assert Piece(name, num, j) == [name[i]] + Piece(name, num, j + 1);
      }
    }
  }

  lemma SlotMarks(name: Name, num: nat, last: bool, checksum: Byte)
    requires 1 <= num < 0x20 && forall k :: 0 <= k < |name| ==> name[k] < 0x1_0000
    ensures var slot := LfnSlot(name, num, last, checksum);
            && slot[0] % 0x20 == num && (slot[0] / 0x40 % 2 == 1 <==> last)
            && slot[0] != 0 && slot[0] != DELETED && IsLfn(slot) && slot[11] != 0x08
  {
    var slot := LfnSlot(name, num, last, checksum);
    assert slot[0] == LfnByte(name, num, last, checksum, 0) && slot[11] == LfnByte(name, num, last, checksum, 11);
  }

  /** The slots of the set that come before the 8.3 slot, from the `i`-th on. */
  function Segments(name: Name, checksum: Byte, i: nat): Dir
    requires Plain(name) && i <= LfnCount(name)
    decreases LfnCount(name) - i
  {
    if i == LfnCount(name) then []
    else [LfnSlot(name, LfnCount(name) - i, i == 0, checksum)] + Segments(name, checksum, i + 1)
  }

  lemma CountFits(name: Name)
    requires Plain(name)
    ensures 1 <= LfnCount(name) <= 20
    ensures (LfnCount(name) - 1) * UNITS < |name| <= LfnCount(name) * UNITS
  {
  }

  /** Scanning the long-name slots gathers the name back to front. */
  lemma {:induction false} GatherName(s: Scan, name: Name, checksum: Byte, i: nat)
    requires Plain(name) && i <= LfnCount(name) && !s.done
    requires 0 < i ==> s.expected == LfnCount(name) - i && s.name == name[Least(|name|, (LfnCount(name) - i) * UNITS)..]
    ensures ScanFrom(s, Segments(name, checksum, i)) == s.(name := name, expected := 0)
    decreases LfnCount(name) - i
  {
    hide LfnSlot, Segment, Piece, EntryOf, IsLfn, LfnCount;
    CountFits(name);
    var n := LfnCount(name);
    if i == n {
      assert name[Least(|name|, 0 * UNITS)..] == name;
    } else {
      var num := n - i;
      GatherOne(s, name, checksum, i);
      var s1 := Step(s, LfnSlot(name, num, i == 0, checksum));
      GatherName(s1, name, checksum, i + 1);
      assert Segments(name, checksum, i)[1..] == Segments(name, checksum, i + 1);
    }
  }

  lemma GatherOne(s: Scan, name: Name, checksum: Byte, i: nat)
    requires Plain(name) && i < LfnCount(name) <= 20 && !s.done
    requires 0 < i ==> s.expected == LfnCount(name) - i && s.name == name[Least(|name|, (LfnCount(name) - i) * UNITS)..]
    ensures var num := LfnCount(name) - i;
            Step(s, LfnSlot(name, num, i == 0, checksum)) ==
            s.(name := name[Least(|name|, (num - 1) * UNITS)..], expected := num - 1)
  {
    hide LfnSlot, Segment, Piece, EntryOf, IsLfn, LfnCount;
    var num := LfnCount(name) - i;
    SlotMarks(name, num, i == 0, checksum);
    SegmentIs(name, num, i == 0, checksum, 0);
    PiecesJoin(name, num, i, if i == 0 then [] else s.name);
  }

  lemma PiecesJoin(name: Name, num: nat, i: nat, rest: Name)
    requires Plain(name) && i < LfnCount(name) && num == LfnCount(name) - i
    requires rest == if i == 0 then [] else name[Least(|name|, num * UNITS)..]
    ensures Piece(name, num, 0) + rest == name[Least(|name|, (num - 1) * UNITS)..]
  {
    CountFits(name);
    var a, b := Least(|name|, (num - 1) * UNITS), Least(|name|, num * UNITS);
    assert name[a..b] + name[b..] == name[a..];
  }

  /** What the new entry is listed as. */
  function NewEntry(name: Name, attr: Byte, cluster: nat, size: nat): Listed {
    Listed(name, attr / 0x10 % 2 == 1, size, cluster)
  }

  lemma ShortSlotReads(short: seq<Byte>, attr: Byte, cluster: nat, size: nat)
    requires ShortOk(short, attr) && cluster < WORD_LIMIT && size < WORD_LIMIT
    ensures var slot := ShortSlot(short, attr, cluster, size);
            && slot[0] == short[0] && slot[11] == attr && !IsDot(slot) && !IsLfn(slot)
            && Word(slot, 28) == size && ClusterOf(slot) == cluster
  {
    var slot := ShortSlot(short, attr, cluster, size);
    assert slot[0] == short[0] && slot[11] == attr;
    assert slot[28] == size % 0x100 && slot[29] == size / 0x100 % 0x100;
    assert slot[30] == size / 0x1_0000 % 0x100 && slot[31] == size / 0x100_0000;
    assert slot[26] == cluster % 0x100 && slot[27] == cluster / 0x100 % 0x100;
    assert slot[20] == cluster / 0x1_0000 % 0x100 && slot[21] == cluster / 0x100_0000;
    WordOfBytes(size);
    WordOfBytes(cluster);
  }

  /** The whole set: segments from the last down, then the 8.3 slot. */
  function Set(name: Name, short: seq<Byte>, attr: Byte, cluster: nat, size: nat): Dir
    requires Plain(name) && |short| == 11 && cluster < WORD_LIMIT && size < WORD_LIMIT
  {
    Segments(name, Checksum(short), 0) + [ShortSlot(short, attr, cluster, size)]
  }

  lemma {:induction false} ScanConcat(s: Scan, a: Dir, b: Dir)
    ensures ScanFrom(s, a + b) == ScanFrom(ScanFrom(s, a), b)
    decreases |a|
  {
    if a == [] {
      assert a + b == b;
    } else {
      assert (a + b)[0] == a[0] && (a + b)[1..] == a[1..] + b;
      ScanConcat(Step(s, a[0]), a[1..], b);
    }
  }

  /** From any state of the scan, the set adds exactly its entry and leaves a clean state. */
  lemma SetScans(s: Scan, name: Name, short: seq<Byte>, attr: Byte, cluster: nat, size: nat)
    requires Plain(name) && ShortOk(short, attr) && cluster < WORD_LIMIT && size < WORD_LIMIT && !s.done
    ensures ScanFrom(s, Set(name, short, attr, cluster, size)) ==
            Cleared(s.(out := s.out + [NewEntry(name, attr, cluster, size)]))
  {
    hide ShortSlot, Segments;
    var tail := [ShortSlot(short, attr, cluster, size)];
    ScanConcat(s, Segments(name, Checksum(short), 0), tail);
    GatherName(s, name, Checksum(short), 0);
    ShortSlotReads(short, attr, cluster, size);
    var s1 := s.(name := name, expected := 0);
    assert tail[1..] == [] && ScanFrom(s1, tail) == Step(s1, tail[0]);
  }

  // ---------------------------------------------------------------------------
  // Writing, then listing
  // ---------------------------------------------------------------------------

  /** Where a scan stops: the first 0x00 slot, or the end.  Anything may stand behind it. */
  function EndOf(dir: Dir): (z: nat)
    ensures z <= |dir| && (z < |dir| ==> dir[z][0] == 0) && forall i :: 0 <= i < z ==> dir[i][0] != 0
  {
    if dir == [] || dir[0][0] == 0 then 0 else 1 + EndOf(dir[1..])
  }

  /** `m` slots from `p` on, which no 0x00 slot precedes; those a scan would still see are deleted. */
  ghost predicate FreeRun(dir: Dir, p: nat, m: nat) {
    && p + m <= |dir| && p <= EndOf(dir)
    && forall i :: p <= i < p + m && i < EndOf(dir) ==> dir[i][0] == DELETED
  }

  function Replace(dir: Dir, p: nat, set_: Dir): Dir
    requires p + |set_| <= |dir|
  {
    dir[..p] + set_ + dir[p + |set_|..]
  }

  lemma {:induction false} NotDone(s: Scan, dir: Dir)
    requires !s.done && forall i :: 0 <= i < |dir| ==> dir[i][0] != 0
    ensures !ScanFrom(s, dir).done
    decreases |dir|
  {
    hide Segment, ShortName, EntryOf;
    if dir != [] { NotDone(Step(s, dir[0]), dir[1..]); }
  }

  lemma {:induction false} Stopped(s: Scan, dir: Dir)
    requires s.done
    ensures ScanFrom(s, dir) == s
    decreases |dir|
  {
    if dir != [] { Stopped(s, dir[1..]); }
  }

  /** Deleted slots only clear the long name. */
  lemma {:induction false} DeletedRun(s: Scan, dir: Dir)
    requires !s.done && forall i :: 0 <= i < |dir| ==> dir[i][0] == DELETED
    ensures ScanFrom(s, dir) == if dir == [] then s else Cleared(s)
    decreases |dir|
  {
    if dir != [] { DeletedRun(Cleared(s), dir[1..]); }
  }

  /** What was listed before does not influence what is listed next. */
  lemma {:induction false} ListedBefore(s: Scan, dir: Dir, before: seq<Listed>)
    ensures ScanFrom(s.(out := before + s.out), dir) == ScanFrom(s, dir).(out := before + ScanFrom(s, dir).out)
    decreases |dir|
  {
    hide Segment, ShortName;
    if dir != [] {
      ListedBefore(Step(s, dir[0]), dir[1..], before);
      var s1 := s.(out := before + s.out);
      assert before + (s.out + [EntryOf(s, dir[0])]) == (before + s.out) + [EntryOf(s, dir[0])];
      assert Step(s1, dir[0]) == Step(s, dir[0]).(out := before + Step(s, dir[0]).out);
    }
  }

  lemma CleanScan(out: seq<Listed>, dir: Dir)
    ensures ScanFrom(Scan(false, [], 0, out), dir).out == out + List(dir)
  {
    ListedBefore(START, dir, out);
    assert out + [] == out;
  }

  /** Nothing from the first 0x00 slot on is listed. */
  lemma ListedUpTo(dir: Dir)
    ensures List(dir) == List(dir[..EndOf(dir)])
  {
    var z := EndOf(dir);
    hide EndOf;
    assert dir == dir[..z] + dir[z..];
    ScanConcat(START, dir[..z], dir[z..]);
    NotDone(START, dir[..z]);
    ZeroTail(ScanFrom(START, dir[..z]), dir[z..]);
  }

  lemma ZeroTail(s: Scan, dir: Dir)
    requires !s.done && (dir != [] ==> dir[0][0] == 0)
    ensures ScanFrom(s, dir).out == s.out
  {
    if dir != [] { Stopped(s.(done := true), dir[1..]); }
  }

  /** Deleted slots between a front and a back list nothing. */
  lemma FrontRunBack(front: Dir, run: Dir, back: Dir)
    requires forall i :: 0 <= i < |front| ==> front[i][0] != 0
    requires run != [] && forall i :: 0 <= i < |run| ==> run[i][0] == DELETED
    ensures List(front + run + back) == List(front) + List(back)
  {
    hide ScanFrom;
    NotDone(START, front);
    var s := ScanFrom(START, front);
    assert front + run + back == front + (run + back);
    ScanConcat(START, front, run + back);
    ScanConcat(s, run, back);
    DeletedRun(s, run);
    CleanScan(s.out, back);
  }

  /** What a directory lists around a run of free slots: the front, and what stands behind the run only
      if the scan gets there. */
  lemma ListWithoutRun(dir: Dir, p: nat, m: nat)
    requires FreeRun(dir, p, m) && 0 < m
    ensures List(dir) == List(dir[..p]) + if p + m <= EndOf(dir) then List(dir[p + m..]) else []
  {
    hide List, EndOf;
    var z, front, back := EndOf(dir), dir[..p], dir[p + m..];
    if p + m <= z {
      assert dir == front + dir[p..p + m] + back;
      FrontRunBack(front, dir[p..p + m], back);
    } else {
      ListedUpTo(dir);
      assert List(front) + [] == List(front);
      if p == z {
        assert dir[..z] == front;
      } else {
        assert dir[..z] == front + dir[p..z] + [];
        FrontRunBack(front, dir[p..z], []);
        NothingListed();
      }
    }
  }

  lemma NothingListed()
    ensures List([]) == []
  {
  }

  lemma SameFront(a: seq<Listed>, b: seq<Listed>, c: seq<Listed>)
    ensures a + b == a + c <==> b == c
  {
    if a + b == a + c {
      assert (a + b)[|a|..] == b && (a + c)[|a|..] == c;
    }
  }

  /** Overwriting the run lets a scan reach old entries it did not reach before: the first 0x00 slot is
      inside the run, and something is listed behind the run. */
  ghost predicate Uncovers(dir: Dir, p: nat, m: nat)
    requires p + m <= |dir|
  {
    EndOf(dir) < p + m && List(dir[p + m..]) != []
  }

  lemma UncoversIff(dir: Dir, p: nat, m: nat)
    requires FreeRun(dir, p, m) && 0 < m
    ensures List(dir) == List(dir[..p]) + List(dir[p + m..]) <==> !Uncovers(dir, p, m)
  {
    hide List, EndOf;
    ListWithoutRun(dir, p, m);
    SameFront(List(dir[..p]), List(dir[p + m..]), []);
  }

  /** Writing a set over a run of free slots that no 0x00 slot precedes puts exactly one entry between
      what stands before the run and what stands behind it.  Nothing else appears if and only if the run
      did not cover the first 0x00 slot in front of old entries. */
  lemma WriteThenList(dir: Dir, p: nat, name: Name, short: seq<Byte>, attr: Byte, cluster: nat, size: nat)
    requires Plain(name) && ShortOk(short, attr) && cluster < WORD_LIMIT && size < WORD_LIMIT
    requires FreeRun(dir, p, |Set(name, short, attr, cluster, size)|)
    ensures var set_ := Set(name, short, attr, cluster, size);
            var front, back := List(dir[..p]), List(dir[p + |set_|..]);
            && List(Replace(dir, p, set_)) == front + [NewEntry(name, attr, cluster, size)] + back
            && (List(dir) == front + back <==> !Uncovers(dir, p, |set_|))
  {
    var set_ := Set(name, short, attr, cluster, size);
    hide Set, EndOf;
    var front, back := dir[..p], dir[p + |set_|..];
    assert 0 < |set_| by { SetSize(name, short, attr, cluster, size); }
    UncoversIff(dir, p, |set_|);
    NotDone(START, front);
    var s := ScanFrom(START, front);
    assert Replace(dir, p, set_) == front + (set_ + back);
    ScanConcat(START, front, set_ + back);
    ScanConcat(s, set_, back);
    SetScans(s, name, short, attr, cluster, size);
    CleanScan(s.out + [NewEntry(name, attr, cluster, size)], back);
  }

  lemma {:induction false} SegmentCount(name: Name, checksum: Byte, i: nat)
    requires Plain(name) && i <= LfnCount(name)
    ensures |Segments(name, checksum, i)| == LfnCount(name) - i
    decreases LfnCount(name) - i
  {
    if i < LfnCount(name) { SegmentCount(name, checksum, i + 1); }
  }

  lemma SetSize(name: Name, short: seq<Byte>, attr: Byte, cluster: nat, size: nat)
    requires Plain(name) && |short| == 11 && cluster < WORD_LIMIT && size < WORD_LIMIT
    ensures |Set(name, short, attr, cluster, size)| == LfnCount(name) + 1
  {
    SegmentCount(name, Checksum(short), 0);
  }

  /** A set written behind a 0x00 slot is never seen: the listing stops before it. */
  lemma WrittenTooFar(dir: Dir, p: nat, set_: Dir)
    requires EndOf(dir) < p && p + |set_| <= |dir|
    ensures List(Replace(dir, p, set_)) == List(dir)
  {
    hide EndOf, List;
    var z, dir' := EndOf(dir), Replace(dir, p, set_);
    assert dir'[..z] == dir[..z] && dir'[z] == dir[z];
    assert forall i :: 0 <= i < z ==> dir'[i] == dir[i];
    assert EndOf(dir') == z;
    ListedUpTo(dir);
    ListedUpTo(dir');
  }

  // ---------------------------------------------------------------------------
  // Deleting
  // ---------------------------------------------------------------------------

  function Erase(slot: Slot): Slot {
    slot[0 := DELETED]
  }

  function EraseAll(dir: Dir): (r: Dir)
    ensures |r| == |dir| && forall i :: 0 <= i < |dir| ==> r[i] == Erase(dir[i])
  {
    if dir == [] then [] else [Erase(dir[0])] + EraseAll(dir[1..])
  }

  /** The directory with `m` slots at `p` marked deleted. */
  function EraseRun(dir: Dir, p: nat, m: nat): Dir
    requires p + m <= |dir|
  {
    dir[..p] + EraseAll(dir[p..p + m]) + dir[p + m..]
  }

  /** Unlinking the set lists what stands before and behind it; that is the old listing if and only if
      writing it did not bring old entries back. */
  lemma UnlinkRestores(dir: Dir, p: nat, name: Name, short: seq<Byte>, attr: Byte, cluster: nat, size: nat)
    requires Plain(name) && ShortOk(short, attr) && cluster < WORD_LIMIT && size < WORD_LIMIT
    requires FreeRun(dir, p, |Set(name, short, attr, cluster, size)|)
    ensures var set_ := Set(name, short, attr, cluster, size);
            var unlinked := List(EraseRun(Replace(dir, p, set_), p, |set_|));
            && unlinked == List(dir[..p]) + List(dir[p + |set_|..])
            && (unlinked == List(dir) <==> !Uncovers(dir, p, |set_|))
  {
    hide Set, List, EndOf;
    SetSize(name, short, attr, cluster, size);
    var set_ := Set(name, short, attr, cluster, size);
    var m := |set_|;
    UncoversIff(dir, p, m);
    var written := Replace(dir, p, set_);
    assert written[..p] == dir[..p] && written[p + m..] == dir[p + m..];
    FrontRunBack(dir[..p], EraseAll(written[p..p + m]), dir[p + m..]);
  }
}
