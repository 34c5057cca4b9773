/** A block device with a FAT32 volume on it: 32-bit table entries inside 512-byte sectors, mirrored
    tables, and clusters of sectors behind them.
 */
module FatDisk {
  type Byte = x: nat | x < 256

  const SECTOR: nat := 512
  const ENTRIES: nat := 128

  function ZeroSector(): (s: seq<Byte>)
    ensures |s| == SECTOR
  {
    seq(SECTOR, _ => 0)
  }

  type Sector = s: seq<Byte> | |s| == SECTOR witness ZeroSector()

  /** Sectors that exist; accesses to others fail. */
  type Disk = map<nat, Sector>

  const TOP: nat := 0x1000_0000
  const WORD_LIMIT: nat := 0x1_0000_0000

  // ---------------------------------------------------------------------------
  // Little-endian words and table entries
  // ---------------------------------------------------------------------------

  function Word(b: seq<Byte>, i: nat): (w: nat)
    requires i + 4 <= |b|
    ensures w < WORD_LIMIT
  {
    (b[i] as nat) + 0x100 * (b[i + 1] as nat) + 0x1_0000 * (b[i + 2] as nat) + 0x100_0000 * (b[i + 3] as nat)
  }

  function SetWord(b: seq<Byte>, i: nat, w: nat): (r: seq<Byte>)
    requires i + 4 <= |b| && w < WORD_LIMIT
    ensures |r| == |b|
  {
    b[i := w % 0x100][i + 1 := w / 0x100 % 0x100][i + 2 := w / 0x1_0000 % 0x100][i + 3 := w / 0x100_0000]
  }

  lemma WordOfBytes(w: nat)
    requires w < WORD_LIMIT
    ensures w == w % 0x100 + 0x100 * (w / 0x100 % 0x100) + 0x1_0000 * (w / 0x1_0000 % 0x100)
                 + 0x100_0000 * (w / 0x100_0000)
  {
    assert w / 0x1_0000 == w / 0x100 / 0x100;
    assert w / 0x100_0000 == w / 0x1_0000 / 0x100;
  }

  /** Storing a word makes it readable and leaves words that do not overlap it alone. */
  lemma SetWordReads(b: seq<Byte>, i: nat, w: nat, j: nat)
    requires i + 4 <= |b| && w < WORD_LIMIT && j + 4 <= |b| && (j == i || j + 4 <= i || i + 4 <= j)
    ensures Word(SetWord(b, i, w), j) == if j == i then w else Word(b, j)
  {
    WordOfBytes(w);
  }

  /** A table entry is the low 28 bits; the top four are kept on every write. */
  function Entry(b: seq<Byte>, k: nat): (e: nat)
    requires 4 * k + 4 <= |b|
    ensures e < TOP
  {
    Word(b, 4 * k) % TOP
  }

  function SetEntry(b: seq<Byte>, k: nat, v: nat): (r: seq<Byte>)
    requires 4 * k + 4 <= |b|
    ensures |r| == |b|
  {
    SetWord(b, 4 * k, v % TOP + Word(b, 4 * k) / TOP * TOP)
  }

  lemma SetEntryReads(b: seq<Byte>, k: nat, v: nat, j: nat)
    requires 4 * k + 4 <= |b| && 4 * j + 4 <= |b|
    ensures Entry(SetEntry(b, k, v), j) == if j == k then v % TOP else Entry(b, j)
  {
    SetWordReads(b, 4 * k, v % TOP + Word(b, 4 * k) / TOP * TOP, 4 * j);
  }

  // ---------------------------------------------------------------------------
  // Where things are
  // ---------------------------------------------------------------------------

  /** The volume's layout, all sector numbers relative to the partition start. */
  datatype Geometry = Geometry(start: nat, fatStart: nat, fatSectors: nat, numFats: nat, perCluster: nat,
                               clusters: nat) {
    function DataStart(): nat { fatStart + numFats * fatSectors }

    /** Table entries in use: clusters are numbered from 2. */
    function Entries(): nat { clusters + 2 }
  }

  const EOF_MIN: nat := 0x0FFF_FFF8
  const EOF_MARK: nat := 0x0FFF_FFFF
  const BAD: nat := 0x0FFF_FFF7

  ghost predicate Sane(g: Geometry) {
    0 < g.numFats && 0 < g.perCluster && g.Entries() <= g.fatSectors * ENTRIES && g.Entries() <= BAD
  }

  /** The sector of copy `f` of the table that holds entry `c`. */
  function FatSector(g: Geometry, f: nat, c: nat): nat {
    g.start + g.fatStart + f * g.fatSectors + c / ENTRIES
  }

  /** Sector `i` of cluster `c`. */
  function DataSector(g: Geometry, c: nat, i: nat): nat
    requires 2 <= c
  {
    g.start + g.DataStart() + (c - 2) * g.perCluster + i
  }

  /** The copies of the table follow each other, clusters begin with number 2 right behind the last copy, and each
      begins where the one before it ends. */
  lemma Layout(g: Geometry, f: nat, c: nat, i: nat)
    requires Sane(g) && 2 <= c
    ensures FatSector(g, 0, 0) == g.start + g.fatStart && FatSector(g, f, c + ENTRIES) == FatSector(g, f, c) + 1
    ensures FatSector(g, f + 1, c) == FatSector(g, f, c) + g.fatSectors
    ensures DataSector(g, 2, 0) == FatSector(g, g.numFats - 1, 0) + g.fatSectors
    ensures DataSector(g, c, i + 1) == DataSector(g, c, i) + 1
    ensures DataSector(g, c + 1, i) == DataSector(g, c, i + g.perCluster)
  {
    Advance(f, g.fatSectors);
    Advance(c - 2, g.perCluster);
    Advance(g.numFats - 1, g.fatSectors);
  }

  lemma Advance(a: nat, d: nat)
    ensures (a + 1) * d == a * d + d
  {
  }

  lemma Multiples(a: nat, b: nat, d: nat)
    requires a < b
    ensures a * d + d <= b * d
  {
    var e := b - a - 1;
    assert (a + 1 + e) * d == a * d + d + e * d;
  }

  lemma FatInside(g: Geometry, f: nat, c: nat)
    requires Sane(g) && f < g.numFats && c < g.Entries()
    ensures c / ENTRIES < g.fatSectors
    ensures g.start + g.fatStart <= FatSector(g, f, c) < g.start + g.DataStart()
  {
    Multiples(f, g.numFats, g.fatSectors);
  }

  /** Entries of different copies, or of different sectors of one copy, never share a sector. */
  lemma FatApart(g: Geometry, f: nat, c: nat, f': nat, c': nat)
    requires Sane(g) && f < g.numFats && f' < g.numFats && c < g.Entries() && c' < g.Entries()
    requires FatSector(g, f, c) == FatSector(g, f', c')
    ensures f == f' && c / ENTRIES == c' / ENTRIES
  {
    FatInside(g, f, c);
    FatInside(g, f', c');
    if f < f' { Multiples(f, f', g.fatSectors); } else if f' < f { Multiples(f', f, g.fatSectors); }
  }

  // ---------------------------------------------------------------------------
  // The table on disk
  // ---------------------------------------------------------------------------

  function EntryAt(disk: Disk, g: Geometry, f: nat, c: nat): nat {
    var s := FatSector(g, f, c);
    if s in disk then Entry(disk[s], c % ENTRIES) else 0
  }

  ghost predicate CopyOk(disk: Disk, g: Geometry, f: nat, c: nat, fat: seq<nat>)
    requires c < |fat|
  {
    FatSector(g, f, c) in disk && EntryAt(disk, g, f, c) == fat[c]
  }

  /** Every copy of the table on disk holds `fat`. */
  ghost predicate Represents(disk: Disk, g: Geometry, fat: seq<nat>) {
    |fat| == g.Entries() && forall f, c :: 0 <= f < g.numFats && 0 <= c < |fat| ==> CopyOk(disk, g, f, c, fat)
  }

  /** The disk after entry `c` was set to `v` in the copies below `n`. */
  ghost predicate Mirrored(disk: Disk, disk': Disk, g: Geometry, fat: seq<nat>, c: nat, v: nat, n: nat)
    requires |fat| == g.Entries() && c < |fat|
  {
    && disk'.Keys == disk.Keys
    && (forall f, k :: 0 <= f < g.numFats && 0 <= k < |fat| ==> Patched(disk', g, f, k, fat, c, v, n))
    && (forall s :: s in disk && !TableSector(g, s) ==> disk'[s] == disk[s])
  }

  ghost predicate Patched(disk: Disk, g: Geometry, f: nat, k: nat, fat: seq<nat>, c: nat, v: nat, n: nat)
    requires c < |fat| && k < |fat|
  {
    CopyOk(disk, g, f, k, if f < n then fat[c := v % TOP] else fat)
  }

  predicate TableSector(g: Geometry, s: nat) {
    g.start + g.fatStart <= s < g.start + g.DataStart()
  }

  lemma MirrorStart(disk: Disk, g: Geometry, fat: seq<nat>, c: nat, v: nat)
    requires Represents(disk, g, fat) && c < |fat|
    ensures Mirrored(disk, disk, g, fat, c, v, 0)
  {
    forall f, k | 0 <= f < g.numFats && 0 <= k < |fat|
      ensures Patched(disk, g, f, k, fat, c, v, 0)
    {
      assert CopyOk(disk, g, f, k, fat);
    }
  }

  lemma MirrorDone(disk: Disk, disk': Disk, g: Geometry, fat: seq<nat>, c: nat, v: nat)
    requires |fat| == g.Entries() && c < |fat| && Mirrored(disk, disk', g, fat, c, v, g.numFats)
    ensures Represents(disk', g, fat[c := v % TOP])
  {
    var fat' := fat[c := v % TOP];
    forall f, k | 0 <= f < g.numFats && 0 <= k < |fat'|
      ensures CopyOk(disk', g, f, k, fat')
    {
      assert Patched(disk', g, f, k, fat, c, v, g.numFats);
    }
  }

  lemma MirrorStep(disk: Disk, disk': Disk, g: Geometry, fat: seq<nat>, c: nat, v: nat, n: nat)
    requires Sane(g) && |fat| == g.Entries() && c < |fat| && n < g.numFats
    requires Mirrored(disk, disk', g, fat, c, v, n)
    ensures FatSector(g, n, c) in disk'
    ensures Mirrored(disk, disk'[FatSector(g, n, c) := SetEntry(disk'[FatSector(g, n, c)], c % ENTRIES, v)],
                     g, fat, c, v, n + 1)
  {
    hide FatSector, SetEntry, Entry;
    assert Patched(disk', g, n, c, fat, c, v, n);
    FatInside(g, n, c);
    var s := FatSector(g, n, c);
    var disk'', m := disk'[s := SetEntry(disk'[s], c % ENTRIES, v)], n + 1;
    forall f, k | 0 <= f < g.numFats && 0 <= k < |fat|
      ensures Patched(disk'', g, f, k, fat, c, v, m)
    {
      assert Patched(disk', g, f, k, fat, c, v, n);
      if FatSector(g, f, k) == s {
        FatApart(g, f, k, n, c);
        SetEntryReads(disk'[s], c % ENTRIES, v, k % ENTRIES);
        SameRemainder(k, c);
      }
    }
  }

  lemma SameRemainder(k: nat, c: nat)
    requires k / ENTRIES == c / ENTRIES
    ensures k % ENTRIES == c % ENTRIES ==> k == c
  {
  }

  /** Writing an entry changes its sector exactly when it changes the entry. */
  lemma SetEntryChanges(b: seq<Byte>, k: nat, v: nat)
    requires 4 * k + 4 <= |b|
    ensures SetEntry(b, k, v) == b <==> Entry(b, k) == v % TOP
  {
    var i := 4 * k;
    var w := Word(b, i);
    if Entry(b, k) == v % TOP {
      BytesOfWord(b, i);
    } else {
      SetEntryReads(b, k, v, k);
    }
  }

  lemma BytesOfWord(b: seq<Byte>, i: nat)
    requires i + 4 <= |b|
    ensures SetWord(b, i, Word(b, i)) == b
  {
    var x0, x1, x2, x3 := b[i] as nat, b[i + 1] as nat, b[i + 2] as nat, b[i + 3] as nat;
    var w := Word(b, i);
    LowByte(x2, x3);
    LowByte(x1, x2 + 0x100 * x3);
    LowByte(x0, x1 + 0x100 * (x2 + 0x100 * x3));
    assert w / 0x1_0000 == w / 0x100 / 0x100 && w / 0x100_0000 == w / 0x1_0000 / 0x100;
  }

  lemma LowByte(x: nat, rest: nat)
    requires x < 0x100
    ensures (x + 0x100 * rest) % 0x100 == x && (x + 0x100 * rest) / 0x100 == rest
  {
  }

  /** `write_fat_entry`'s effect on the disk once the copies below `n` are written. */
  function WriteCopies(disk: Disk, g: Geometry, c: nat, v: nat, n: nat): Disk {
    if n == 0 then disk
    else
      var d := WriteCopies(disk, g, c, v, n - 1);
      var s := FatSector(g, n - 1, c);
      if s in d then d[s := SetEntry(d[s], c % ENTRIES, v)] else d
  }

  /** How many copies, of the first `n`, a write of entry `c` reaches: it stops at the first missing sector. */
  function Reached(disk: Disk, g: Geometry, c: nat, n: nat): (r: nat)
    ensures r <= n && forall f :: 0 <= f < r ==> FatSector(g, f, c) in disk
    ensures r < n ==> FatSector(g, r, c) !in disk
  {
    if n == 0 then 0
    else
      var r := Reached(disk, g, c, n - 1);
      if r == n - 1 && FatSector(g, n - 1, c) in disk then n else r
  }

  lemma CopiesApart(g: Geometry, f: nat, f': nat, c: nat)
    requires Sane(g) && f != f'
    ensures FatSector(g, f, c) != FatSector(g, f', c)
  {
    if f < f' { Multiples(f, f', g.fatSectors); } else { Multiples(f', f, g.fatSectors); }
  }

  /** The write of entry `c` into the copies below `n`, sector by sector. */
  lemma {:induction false} WrittenSectors(disk: Disk, g: Geometry, c: nat, v: nat, n: nat)
    requires Sane(g)
    ensures WriteCopies(disk, g, c, v, n).Keys == disk.Keys
    ensures forall f :: 0 <= f < n && FatSector(g, f, c) in disk ==>
              WriteCopies(disk, g, c, v, n)[FatSector(g, f, c)] == SetEntry(disk[FatSector(g, f, c)], c % ENTRIES, v)
    ensures forall s :: s in disk && (forall f :: 0 <= f < n ==> s != FatSector(g, f, c)) ==>
              WriteCopies(disk, g, c, v, n)[s] == disk[s]
  {
    hide SetEntry, FatSector;
    if n > 0 {
      WrittenSectors(disk, g, c, v, n - 1);
      var d, s := WriteCopies(disk, g, c, v, n - 1), FatSector(g, n - 1, c);
      forall f | 0 <= f < n - 1
        ensures FatSector(g, f, c) != s
      {
        CopiesApart(g, f, n - 1, c);
      }
      assert s in disk ==> d[s] == disk[s];
    }
  }

  /** A write changes nothing if and only if every word it reaches has the value already. */
  lemma WritesNothing(disk: Disk, g: Geometry, c: nat, v: nat, n: nat)
    requires Sane(g)
    ensures WriteCopies(disk, g, c, v, n) == disk <==>
            forall f :: 0 <= f < n && FatSector(g, f, c) in disk ==> EntryAt(disk, g, f, c) == v % TOP
  {
    hide WriteCopies, FatSector, SetEntry, Entry;
    WrittenSectors(disk, g, c, v, n);
    var d := WriteCopies(disk, g, c, v, n);
    forall f | 0 <= f < n && FatSector(g, f, c) in disk
      ensures d[FatSector(g, f, c)] == disk[FatSector(g, f, c)] <==> EntryAt(disk, g, f, c) == v % TOP
    {
      SetEntryChanges(disk[FatSector(g, f, c)], c % ENTRIES, v);
    }
    if forall f :: 0 <= f < n && FatSector(g, f, c) in disk ==> EntryAt(disk, g, f, c) == v % TOP {
      forall s | s in disk
        ensures d[s] == disk[s]
      {
        if f :| 0 <= f < n && s == FatSector(g, f, c) {
        }
      }
      assert d == disk;
    }
  }

  lemma {:induction false} WritesMirror(disk: Disk, g: Geometry, fat: seq<nat>, c: nat, v: nat, n: nat)
    requires Sane(g) && Represents(disk, g, fat) && c < |fat| && n <= g.numFats
    ensures Mirrored(disk, WriteCopies(disk, g, c, v, n), g, fat, c, v, n)
  {
    hide Mirrored;
    if n == 0 {
      MirrorStart(disk, g, fat, c, v);
    } else {
      WritesMirror(disk, g, fat, c, v, n - 1);
      MirrorStep(disk, WriteCopies(disk, g, c, v, n - 1), g, fat, c, v, n - 1);
    }
  }

  /** Of the first copy only the entry's own sector is rewritten. */
  lemma {:induction false} FirstCopy(disk: Disk, g: Geometry, c: nat, v: nat, n: nat, s: nat)
    requires Sane(g) && c < g.Entries() && n <= g.numFats && s in disk
    requires g.start + g.fatStart <= s < g.start + g.fatStart + g.fatSectors
    ensures s in WriteCopies(disk, g, c, v, n)
    ensures WriteCopies(disk, g, c, v, n)[s] ==
            if 0 < n && s == FatSector(g, 0, c) then SetEntry(disk[s], c % ENTRIES, v) else disk[s]
  {
    if 0 < n {
      FirstCopy(disk, g, c, v, n - 1, s);
      FatInside(g, n - 1, c);
      if 1 < n { Multiples(0, n - 1, g.fatSectors); }
    }
  }
}
