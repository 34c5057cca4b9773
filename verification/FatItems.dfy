/** A directory as the entries it holds.

    Entries are written down as slots one after the other; listing gives their names back in order, and a lookup
    finds the first that has the name.
 */
module FatItems {
  import opened Options
  import opened FatDisk
  import opened FatChains
  import opened FatVolume
  import opened FatFiles
  import opened FatNames
  import opened FatLookup
  import opened FatDirectory
  import FatOpen

  // ---------------------------------------------------------------------------
  // Short names
  // ---------------------------------------------------------------------------

  ghost predicate NoSpace(text: seq<Byte>) {
    forall i :: 0 <= i < |text| ==> text[i] != SPACE
  }

  /** Bytes [at, at + width) of the slot hold `text`, padded with spaces when it is shorter. */
  ghost predicate Field(slot: Slot, at: nat, width: nat, text: seq<Byte>)
    requires at + width <= 11
  {
    && |text| <= width && NoSpace(text) && slot[at..at + |text|] == text
    && (|text| < width ==> slot[at + |text|] == SPACE)
  }

  /** The slot's 8.3 name is `base` and `ext`. */
  ghost predicate Spells(slot: Slot, base: seq<Byte>, ext: seq<Byte>) {
    Field(slot, 0, 8, base) && Field(slot, 8, 3, ext)
  }

  /** Text as it is shown: capital letters become small ones when the entry says so. */
  function Cased(text: seq<Byte>, lower: bool): Name {
    seq(|text|, i requires 0 <= i < |text| => if lower && 'A' as nat <= text[i] <= 'Z' as nat then text[i] + 32
                                             else text[i] as nat)
  }

  /** `base`, and a dot and `ext` if there is one.  Bit 3 of the case byte is for the base, bit 4 for the rest. */
  function Shown(base: seq<Byte>, ext: seq<Byte>, nt: Byte): Name {
    Cased(base, nt / 8 % 2 == 1) + if ext == [] then [] else ['.' as nat] + Cased(ext, nt / 16 % 2 == 1)
  }

  lemma {:induction false} PartIs(slot: Slot, at: nat, width: nat, text: seq<Byte>, k: nat, lower: bool)
    requires at + width <= 11 && Field(slot, at, width, text) && k <= |text|
    ensures ShortPart(slot, at + k, at + width, lower) == Cased(text, lower)[k..]
    decreases |text| - k
  {
    if k < |text| {
      PartIs(slot, at, width, text, k + 1, lower);
      assert slot[at + k] == slot[at..at + |text|][k];
      assert Cased(text, lower)[k..] == [Cased(text, lower)[k]] + Cased(text, lower)[k + 1..];
    }
  }

  /** What an entry without long name is called. */
  lemma ShortNameIs(slot: Slot, base: seq<Byte>, ext: seq<Byte>)
    requires Spells(slot, base, ext)
    ensures ShortName(slot) == Shown(base, ext, slot[12])
  {
    hide Cased;
    PartIs(slot, 0, 8, base, 0, slot[12] / 8 % 2 == 1);
    PartIs(slot, 8, 3, ext, 0, slot[12] / 16 % 2 == 1);
    if ext != [] { assert slot[8] == slot[8..8 + |ext|][0]; }
  }

  // ---------------------------------------------------------------------------
  // What other readers of the disk expect
  // ---------------------------------------------------------------------------

  /** The one long-name slot of "abc", byte by byte. */
  lemma AbcSlot(checksum: Byte)
    ensures LfnSlot(['a' as nat, 'b' as nat, 'c' as nat], 1, true, checksum) ==
            [0x41, 0x61, 0, 0x62, 0, 0x63, 0, 0, 0, 0xFF, 0xFF, 0x0F, 0, checksum, 0xFF, 0xFF,
             0xFF, 0xFF, 0xFF, 0xFF, 0xFF, 0xFF, 0xFF, 0xFF, 0xFF, 0xFF, 0, 0, 0xFF, 0xFF, 0xFF, 0xFF]
  {
  }

  /** One step of the checksum. */
  function Rotated(sum: Byte, b: Byte): Byte {
    (Half(sum) + b) % 0x100
  }

  lemma ChecksumSnoc(short: seq<Byte>, b: Byte)
    ensures Checksum(short + [b]) == Rotated(Checksum(short), b)
  {
    assert (short + [b])[..|short|] == short;
  }

  lemma RotatedOnce(a: Byte, x: Byte, b: Byte, y: Byte)
    ensures a == b ==> (Rotated(a, x) == Rotated(b, y) <==> x == y)
    ensures x == y ==> (Rotated(a, x) == Rotated(b, y) <==> a == b)
  {
    var c, d := Half(a), Half(b);
    Sums(c, x, y);
    Sums(x, c, d);
  }

  function Half(sum: Byte): nat {
    (if sum % 2 == 1 then 0x80 else 0) + sum / 2
  }

  lemma Sums(a: nat, b: Byte, c: Byte)
    ensures (a + b) % 0x100 == (a + c) % 0x100 <==> b == c
  {
  }

  /** Changing one byte of the short name always changes the checksum. */
  lemma {:induction false} ChecksumDetects(short: seq<Byte>, i: nat, b: Byte)
    requires i < |short|
    ensures Checksum(short[i := b]) == Checksum(short) <==> b == short[i]
    decreases |short|
  {
    hide Checksum, Rotated;
    var n := |short| - 1;
    var other := short[i := b];
    assert short == short[..n] + [short[n]] && other == other[..n] + [other[n]];
    ChecksumSnoc(short[..n], short[n]);
    ChecksumSnoc(other[..n], other[n]);
    if i < n {
      ChecksumDetects(short[..n], i, b);
      assert other[..n] == short[..n][i := b];
    } else {
      assert other[..n] == short[..n];
    }
    RotatedOnce(Checksum(short[..n]), short[n], Checksum(other[..n]), other[n]);
  }

  lemma ChecksumTo(short: seq<Byte>, k: nat, sum: Byte, b: Byte, next: Byte)
    requires 0 < k <= |short| && Checksum(short[..k - 1]) == sum && short[k - 1] == b && Rotated(sum, b) == next
    ensures Checksum(short[..k]) == next
  {
    hide Rotated;
    assert short[..k] == short[..k - 1] + [short[k - 1]];
    ChecksumSnoc(short[..k - 1], short[k - 1]);
  }

  lemma ChecksumNone(short: seq<Byte>)
    ensures Checksum(short[..0]) == 0
  {
  }

  /** The checksum of "README  TXT". */
  lemma ReadmeChecksum()
    ensures Checksum([0x52, 0x45, 0x41, 0x44, 0x4D, 0x45, 0x20, 0x20, 0x54, 0x58, 0x54]) == 0x73
  {
    hide Checksum;
    var short: seq<Byte> := [0x52, 0x45, 0x41, 0x44, 0x4D, 0x45, 0x20, 0x20, 0x54, 0x58, 0x54];
    ChecksumNone(short);
    ChecksumTo(short, 1, 0x00, 0x52, 0x52);
    ChecksumTo(short, 2, 0x52, 0x45, 0x6E);
    ChecksumTo(short, 3, 0x6E, 0x41, 0x78);
    ChecksumTo(short, 4, 0x78, 0x44, 0x80);
    ChecksumTo(short, 5, 0x80, 0x4D, 0x8D);
    ChecksumTo(short, 6, 0x8D, 0x45, 0x0B);
    ChecksumTo(short, 7, 0x0B, 0x20, 0xA5);
    ChecksumTo(short, 8, 0xA5, 0x20, 0xF2);
    ChecksumTo(short, 9, 0xF2, 0x54, 0xCD);
    ChecksumTo(short, 10, 0xCD, 0x58, 0x3E);
    ChecksumTo(short, 11, 0x3E, 0x54, 0x73);
    assert short[..11] == short;
  }

  // ---------------------------------------------------------------------------
  // Entries
  // ---------------------------------------------------------------------------

  /** A long name with its set of slots, a short entry, an entry listings leave out (a volume label, "." or
      ".."), or a deleted slot. */
  datatype Item =
    | Long(name: Name, short: seq<Byte>, attr: Byte, cluster: nat, size: nat)
    | Short(slot: Slot, base: seq<Byte>, ext: seq<Byte>)
    | Hidden(slot: Slot, base: seq<Byte>, ext: seq<Byte>)
    | Gone(slot: Slot)

  ghost predicate ItemOk(item: Item) {
    match item
    case Long(name, short, attr, cluster, size) =>
      Plain(name) && ShortOk(short, attr) && cluster < WORD_LIMIT && size < WORD_LIMIT
    case Short(slot, base, ext) => Spells(slot, base, ext) && Regular(slot) && slot[11] != 0x08 && !IsDot(slot)
    case Hidden(slot, base, ext) => Spells(slot, base, ext) && Regular(slot) && (slot[11] == 0x08 || IsDot(slot))
    case Gone(slot) => slot[0] == DELETED
  }

  ghost predicate Regular(slot: Slot) {
    slot[0] != 0 && slot[0] != DELETED && !IsLfn(slot)
  }

  ghost function SlotsFor(item: Item): Dir
    requires ItemOk(item)
  {
    if item.Long? then Set(item.name, item.short, item.attr, item.cluster, item.size) else [item.slot]
  }

  /** What a listing says of the entry. */
  ghost function ListedAs(item: Item): seq<Listed> {
    match item
    case Long(name, _, attr, cluster, size) => [Listed(name, attr / 0x10 % 2 == 1, size, cluster)]
    case Short(slot, base, ext) =>
      [Listed(Shown(base, ext, slot[12]), slot[11] / 0x10 % 2 == 1, Word(slot, 28), ClusterOf(slot))]
    case Hidden(_, _, _) => []
    case Gone(_) => []
  }

  /** The name a lookup compares with. */
  ghost function Called(item: Item): Option<Name> {
    match item
    case Long(name, _, _, _, _) => Some(name)
    case Short(slot, base, ext) => Some(Shown(base, ext, slot[12]))
    case Hidden(slot, base, ext) => Some(Shown(base, ext, slot[12]))
    case Gone(_) => None
  }

  ghost predicate ItemsOk(items: seq<Item>) {
    forall k :: 0 <= k < |items| ==> ItemOk(items[k])
  }

  ghost function AllSlots(items: seq<Item>): Dir
    requires ItemsOk(items)
  {
    if items == [] then [] else SlotsFor(items[0]) + AllSlots(items[1..])
  }

  ghost function AllListed(items: seq<Item>): seq<Listed> {
    if items == [] then [] else ListedAs(items[0]) + AllListed(items[1..])
  }

  /** The directory holds the entries and ends there: no slot follows, or one that is 0x00. */
  ghost predicate Holds(dir: Dir, items: seq<Item>) {
    && ItemsOk(items) && AllSlots(items) <= dir
    && (|AllSlots(items)| < |dir| ==> dir[|AllSlots(items)|][0] == 0)
  }

  // ---------------------------------------------------------------------------
  // Listing
  // ---------------------------------------------------------------------------

  /** A scan that has gathered no long name. */
  function Clean(out: seq<Listed>): Scan {
    Scan(false, [], 0, out)
  }

  lemma ItemScans(item: Item, out: seq<Listed>)
    requires ItemOk(item)
    ensures ScanFrom(Clean(out), SlotsFor(item)) == Clean(out + ListedAs(item))
  {
    hide Shown, Spells, Segment, Set, ShortName, IsDot, IsLfn;
    match item
    case Long(name, short, attr, cluster, size) =>
      SetScans(Clean(out), name, short, attr, cluster, size);
    case Short(slot, base, ext) =>
      ShortNameIs(slot, base, ext);
      OneSlot(Clean(out), slot);
    case Hidden(slot, _, _) =>
      OneSlot(Clean(out), slot);
    case Gone(slot) =>
      OneSlot(Clean(out), slot);
  }

  lemma OneSlot(s: Scan, slot: Slot)
    ensures ScanFrom(s, [slot]) == Step(s, slot)
  {
    hide Step;
    assert [slot][1..] == [];
  }

  lemma {:induction false} ItemsScan(items: seq<Item>, out: seq<Listed>)
    requires ItemsOk(items)
    ensures ScanFrom(Clean(out), AllSlots(items)) == Clean(out + AllListed(items))
    decreases |items|
  {
    hide ItemOk, SlotsFor, ListedAs, ScanFrom;
    if items == [] {
      NoScan(Clean(out));
      assert out + [] == out;
    } else {
      ItemScans(items[0], out);
      ScanConcat(Clean(out), SlotsFor(items[0]), AllSlots(items[1..]));
      ItemsScan(items[1..], out + ListedAs(items[0]));
      assert out + ListedAs(items[0]) + AllListed(items[1..]) == out + AllListed(items);
    }
  }

  lemma NoScan(s: Scan)
    ensures ScanFrom(s, []) == s
  {
  }

  /** The listing of a directory is that of its entries, in order. */
  lemma ListItems(dir: Dir, items: seq<Item>)
    requires Holds(dir, items)
    ensures List(dir) == AllListed(items)
  {
    hide ItemsOk, AllSlots, AllListed, ScanFrom;
    var n := |AllSlots(items)|;
    assert dir == AllSlots(items) + dir[n..];
    ScanConcat(START, AllSlots(items), dir[n..]);
    ItemsScan(items, []);
    assert [] + AllListed(items) == AllListed(items);
    ZeroTail(Clean(AllListed(items)), dir[n..]);
  }

  // ---------------------------------------------------------------------------
  // Looking up
  // ---------------------------------------------------------------------------

  ghost predicate Matches(item: Item, name: Name) {
    Called(item).Some? && SameName(Called(item).value, name)
  }

  /** Where entry `item` whose slots begin at `at` is found. */
  ghost function PlaceOf(item: Item, at: nat): Found {
    if item.Long? then Found(at + LfnCount(item.name), at, LfnCount(item.name)) else Found(at, 0, 0)
  }

  ghost function FirstMatch(items: seq<Item>, at: nat, name: Name): Option<Found>
    requires ItemsOk(items)
  {
    if items == [] then None
    else if Matches(items[0], name) then Some(PlaceOf(items[0], at))
    else FirstMatch(items[1..], at + |SlotsFor(items[0])|, name)
  }

  lemma OneLook(s: Search, slot: Slot, at: nat, name: Name)
    ensures Look(s, [slot], at, name) == LookStep(s, slot, at, name)
  {
    hide LookStep;
    assert [slot][1..] == [];
  }

  lemma NoLook(s: Search, at: nat, name: Name)
    ensures Look(s, [], at, name) == s
  {
  }

  lemma LongLooks(item: Item, at: nat, name: Name)
    requires ItemOk(item) && item.Long?
    ensures var s := Look(BEGIN, SlotsFor(item), at, name);
            && !s.stop && s.found == (if Matches(item, name) then Some(PlaceOf(item, at)) else None)
            && (s.found.None? ==> s == BEGIN)
  {
    hide Look, ShortSlot, Segments, SameName, ShortName, IsLfn, LfnCount;
    var long, sum, n := item.name, Checksum(item.short), LfnCount(item.name);
    var slot := ShortSlot(item.short, item.attr, item.cluster, item.size);
    StartGathering(BEGIN, long, at);
    CountFits(long);
    GatherAll(BEGIN, long, sum, 0, at, name);
    var s := Look(BEGIN, Segments(long, sum, 0), at, name);
    SegmentCount(long, sum, 0);
    LookConcat(BEGIN, Segments(long, sum, 0), [slot], at, name);
    OneLook(s, slot, at + n, name);
    ShortSlotReads(item.short, item.attr, item.cluster, item.size);
    assert s.name == long by { assert long[0..] == long; }
  }

  lemma ItemLooks(item: Item, at: nat, name: Name)
    requires ItemOk(item)
    ensures var s := Look(BEGIN, SlotsFor(item), at, name);
            && !s.stop && s.found == (if Matches(item, name) then Some(PlaceOf(item, at)) else None)
            && (s.found.None? ==> s == BEGIN)
  {
    hide Shown, Spells, Segment, Set, ShortName, IsDot, IsLfn, SameName;
    if item.Long? {
      LongLooks(item, at, name);
    } else {
      OneLook(BEGIN, item.slot, at, name);
      if !item.Gone? { ShortNameIs(item.slot, item.base, item.ext); }
    }
  }

  lemma {:induction false} ItemsLook(items: seq<Item>, at: nat, name: Name)
    requires ItemsOk(items)
    ensures var s := Look(BEGIN, AllSlots(items), at, name);
            !s.stop && s.found == FirstMatch(items, at, name) && (s.found.None? ==> s == BEGIN)
    decreases |items|
  {
    hide ItemOk, SlotsFor, PlaceOf, Look, Matches;
    if items == [] {
      NoLook(BEGIN, at, name);
    } else {
      ItemLooks(items[0], at, name);
      LookConcat(BEGIN, SlotsFor(items[0]), AllSlots(items[1..]), at, name);
      if Matches(items[0], name) {
        KeepsFound(Look(BEGIN, SlotsFor(items[0]), at, name), AllSlots(items[1..]), at + |SlotsFor(items[0])|, name);
      } else {
        ItemsLook(items[1..], at + |SlotsFor(items[0])|, name);
      }
    }
  }

  /** A lookup finds the first entry that has the name, and nothing when none has. */
  lemma LookupItems(dir: Dir, items: seq<Item>, name: Name)
    requires Holds(dir, items)
    ensures Lookup(dir, name) == FirstMatch(items, 0, name)
  {
    hide ItemsOk, AllSlots, FirstMatch, Look;
    var n := |AllSlots(items)|;
    assert dir == AllSlots(items) + dir[n..];
    LookConcat(BEGIN, AllSlots(items), dir[n..], 0, name);
    ItemsLook(items, 0, name);
    var s := Look(BEGIN, AllSlots(items), 0, name);
    if s.found.Some? { KeepsFound(s, dir[n..], n, name); } else { NothingBehind(dir[n..], n, name); }
  }

  lemma NothingBehind(dir: Dir, at: nat, name: Name)
    requires dir != [] ==> dir[0][0] == 0
    ensures Look(BEGIN, dir, at, name).found == None
  {
    if dir != [] { FatOpen.KeepsStopped(BEGIN.(stop := true), dir[1..], at + 1, name); }
  }

  lemma {:induction false} SomeMatch(items: seq<Item>, at: nat, name: Name)
    requires ItemsOk(items)
    ensures FirstMatch(items, at, name).Some? <==> exists k :: 0 <= k < |items| && Matches(items[k], name)
    decreases |items|
  {
    hide ItemOk, SlotsFor, PlaceOf, Matches;
    if items != [] {
      SomeMatch(items[1..], at + |SlotsFor(items[0])|, name);
      assert forall k :: 0 < k < |items| ==> items[k] == items[1..][k - 1];
    }
  }

  /** Names match when they agree but for the case of Latin letters. */
  lemma NamesMatch(a: Name, b: Name)
    ensures SameName(a, b) <==>
            && |a| == |b|
            && forall i :: 0 <= i < |a| ==> a[i] == b[i] || CaseOf(a[i], b[i]) || CaseOf(b[i], a[i])
  {
  }

  /** `small` is the small form of the capital letter `c`. */
  predicate CaseOf(c: nat, small: nat) {
    'A' as nat <= c <= 'Z' as nat && small == c - 'A' as nat + 'a' as nat
  }

  // ---------------------------------------------------------------------------
  // On disk
  // ---------------------------------------------------------------------------

  /** `list_dir` reports the entries of the directory. */
  method ListEntries(v: Volume, first: nat, ghost items: seq<Item>) returns (out: seq<Listed>)
    requires v.Valid() && DataThere(v.disk, v.g) && first in v.chains
    requires Holds(DirOf(v.disk, v.g, v.chains[first]), items)
    modifies v`cacheKey, v`cacheBuf
    ensures v.Valid() && out == AllListed(items)
  {
    hide Represents, CacheOk, ChainsOk, BitmapOk, DataThere, DirOf, List, AllListed, Holds;
    ListItems(DirOf(v.disk, v.g, v.chains[first]), items);
    out := ListDir(v, first);
  }

  /** `lookup_in_dir` finds a name if and only if some entry has it, and then the slot of the first one. */
  method FindEntry(v: Volume, first: nat, name: Name, ghost items: seq<Item>) returns (r: Option<FatOpen.DirEntry>)
    requires v.Valid() && DataThere(v.disk, v.g) && first in v.chains
    requires Holds(DirOf(v.disk, v.g, v.chains[first]), items)
    modifies v`cacheKey, v`cacheBuf
    ensures v.Valid()
    ensures r.Some? <==> exists k :: 0 <= k < |items| && Matches(items[k], name)
    ensures r.Some? ==>
              var dir, found := DirOf(v.disk, v.g, v.chains[first]), FirstMatch(items, 0, name);
              found.Some? && found.value.index < |dir| && r.value.slot == dir[found.value.index]
  {
    hide Represents, CacheOk, ChainsOk, BitmapOk, DataThere, DirOf, Lookup, AllSlots, FirstMatch, FatOpen.IsPlace,
      Matches;
    LookupItems(DirOf(v.disk, v.g, v.chains[first]), items, name);
    SomeMatch(items, 0, name);
    r := FatOpen.LookupInDir(v, first, name);
  }
}
