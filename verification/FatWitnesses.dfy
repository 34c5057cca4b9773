/** A volume of two clusters, a directory in cluster 2 and a file in cluster 3, on which the FAT code goes
    wrong, driven through the modelled operations. */
module FatWitnesses {
  import opened FatDisk
  import opened FatChains
  import opened FatVolume
  import opened FatContent
  import opened FatFiles
  import opened FatWrite

  /** One table sector in front of two clusters of one sector each. */
  const TINY: Geometry := Geometry(0, 0, 1, 1, 1, 2)

  /** Where an end mark points when it is taken for a table index. */
  const END_SECTOR: nat := 0x1F_FFFF

  /** The table: clusters 2 and 3 are chains of their own. */
  function TinyTable(): (s: Sector)
    ensures |s| == SECTOR
  {
    SetEntry(SetEntry(ZeroSector(), 2, EOF_MARK), 3, EOF_MARK)
  }

  function TinyDisk(): Disk {
    map[0 := TinyTable(), 1 := ZeroSector(), 2 := ZeroSector()]
  }

  function TinyFat(): seq<nat> {
    [0, 0, EOF_MARK, EOF_MARK]
  }

  function TinyChains(): Chains {
    map[2 := [2], 3 := [3]]
  }

  lemma TableReads(k: nat)
    requires k < 4
    ensures Entry(TinyTable(), k) == TinyFat()[k]
  {
    hide Entry, SetEntry, ZeroSector;
    ZeroEntries(k);
    SetEntryReads(ZeroSector(), 2, EOF_MARK, k);
    SetEntryReads(SetEntry(ZeroSector(), 2, EOF_MARK), 3, EOF_MARK, k);
  }

  lemma TinyMounts(disk: Disk)
    requires 0 in disk && disk[0] == TinyTable()
    ensures Sane(TINY) && Represents(disk, TINY, TinyFat()) && ChainsOk(TinyFat(), TinyChains())
  {
    hide Entry, TinyTable;
    forall f, c | 0 <= f < TINY.numFats && 0 <= c < |TinyFat()|
      ensures CopyOk(disk, TINY, f, c, TinyFat())
    {
      TableReads(c);
    }
    TinyLinks();
  }

  lemma TinyLinks()
    ensures ChainsOk(TinyFat(), TinyChains())
  {
    var fat, chains := TinyFat(), TinyChains();
    assert Linked(fat, [2], 0) && Linked(fat, [3], 0);
    assert Position(chains, 2, 0) && Position(chains, 3, 0);
  }

  /** The device reaches the end-mark sector and a word there is not zero: freeing the file clears it, outside
      the table and outside the file. */
  method EndMarkHit() returns (before: Disk, v: Volume)
    ensures END_SECTOR in before && END_SECTOR in v.disk && !TableSector(v.g, END_SECTOR)
    ensures Entry(before[END_SECTOR], 127) == 1 && Entry(v.disk[END_SECTOR], 127) == 0
  {
    hide Entry, SetEntry, ZeroSector, TinyTable, TinyFat, TinyChains, Represents, ChainsOk, BitmapOk, FreedDisk,
      FreeFat, EndHarmless, CacheOk;
    before := TinyDisk()[END_SECTOR := SetEntry(ZeroSector(), 127, 1)];
    TinyMounts(before);
    SetEntryReads(ZeroSector(), 127, 1, 127);
    v := new Volume(TINY, before, TinyFat(), TinyChains());
    FileThree();
    v.FreeChain(3);
    ghost var freed := FreedDisk(before, TINY, [3], 1);
    EndCleared(freed, v.disk);
  }

  lemma FileThree()
    ensures 3 in TinyChains() && TinyChains()[3] == [3] && 2 in TinyChains() && TinyChains()[2] == [2]
    ensures |TinyFat()| == 4 && TinyFat()[3] == EOF_MARK && TinyFat()[2] == EOF_MARK
  {
  }

  lemma EndCleared(freed: Disk, disk: Disk)
    requires END_SECTOR in freed
    requires disk == WriteCopies(freed, TINY, EOF_MARK, 0, Reached(freed, TINY, EOF_MARK, TINY.numFats))
    ensures END_SECTOR in disk && Entry(disk[END_SECTOR], 127) == 0
  {
    hide Entry, SetEntry;
    assert FatSector(TINY, 0, EOF_MARK) == END_SECTOR && Reached(freed, TINY, EOF_MARK, 0) == 0;
    assert Reached(freed, TINY, EOF_MARK, 1) == 1;
    WrittenSectors(freed, TINY, EOF_MARK, 0, 1);
    SetEntryReads(freed[END_SECTOR], 127, 0, 127);
  }

  lemma TinySizes()
    ensures ClusterSize(TINY) == SECTOR && 0 < ClusterSize(TINY)
    ensures Begin(TINY, 1) == SECTOR
  {
  }

  lemma TinyThere(disk: Disk)
    requires 1 in disk && 2 in disk
    ensures DataThere(disk, TINY)
  {
    hide DataSector;
    FarCluster(2);
    FarCluster(3);
    assert ClusterThere(disk, TINY, 2) && ClusterThere(disk, TINY, 3);
    forall c | 2 <= c < TINY.Entries()
      ensures ClusterThere(disk, TINY, c)
    {
      assert c == 2 || c == 3;
    }
  }

  lemma FarCluster(e: nat)
    requires 2 <= e
    ensures DataSector(TINY, e, 0) == e - 1
  {
  }

  lemma TinyEnd(disk: Disk)
    requires forall s :: s in disk ==> s <= 2
    ensures EndAbsent(disk, TINY)
  {
    hide DataSector;
    forall e: nat | IsEof(e)
      ensures !ClusterThere(disk, TINY, e)
    {
      FarCluster(e);
    }
  }

  /** A file of one full cluster.  Appending a byte writes nothing; writing a byte further on writes nothing
      either, but the size goes up past the chain. */
  method BeyondTheEnd() returns (v: Volume, appended: nat, written: nat, size: nat)
    ensures appended == 0 && written == 0 && size == SECTOR + 1
    ensures 3 in v.chains && !FileOk(v.g, v.chains, 3, size)
  {
    hide TinyTable, TinyDisk, TinyFat, TinyChains, Represents, ChainsOk, BitmapOk, CacheOk, DataThere, EndAbsent,
      FileOk, StartsWell, Stopped, OtherFilesBut, FilePatched, EntryReads, PatchEntry, ClusterBytes, ClusterSize,
      Begin, IndexAt, OffsetAt;
    var disk := TinyDisk();
    TinyDiskIs();
    TinyMounts(disk);
    TinyThere(disk);
    TinyEnd(disk);
    FileThree();
    OneCluster();
    OneClusterStarts(TinyFat(), [3]);
    v := new Volume(TINY, disk, TinyFat(), TinyChains());
    var first, size1;
    ghost var added;
    appended, first, size1, added := WriteAt(v, 3, SECTOR, SECTOR, [7], 2, 0);
    assert [3] + added == [3];
    written, first, size, added := WriteAt(v, 3, SECTOR, SECTOR + 1, [7], 2, 0);
    assert [3] + added == [3];
  }

  lemma TinyDiskIs()
    ensures 0 in TinyDisk() && TinyDisk()[0] == TinyTable() && 1 in TinyDisk() && 2 in TinyDisk()
    ensures forall s :: s in TinyDisk() ==> s <= 2
  {
    hide TinyTable, ZeroSector;
  }

  lemma OneCluster()
    ensures 0 < ClusterSize(TINY) && Begin(TINY, 1) == SECTOR && FileOk(TINY, TinyChains(), 3, SECTOR)
    ensures PlaceOf(TINY, 1, SECTOR + 1).AtEnd? && PlaceOf(TINY, 1, SECTOR).AtEnd?
  {
    hide Begin, ClusterSize;
    TinySizes();
    assert IndexAt(TINY, SECTOR + 1) == 1 && IndexAt(TINY, SECTOR) == 1;
  }

  lemma OneClusterStarts(fat: seq<nat>, q: seq<nat>)
    requires |q| == 1
    ensures !StartsWell(fat, TINY, q, SECTOR + 1) && StartsWell(fat, TINY, q, SECTOR)
  {
    hide Begin, ClusterSize, Full;
    TinySizes();
  }
}
