/** The file allocation table: byte-level access, and the array of links it stands for. */
module FatTable {
  import opened Bytes
  import opened FatLayout

  /** The mounted volume: the layout constants and the sectors of the disk. */
  class Volume {
    const g: Geometry
    var disk: seq<Sector>

    constructor (geometry: Geometry, sectors: seq<Sector>)
      ensures g == geometry && disk == sectors
    {
      g := geometry;
      disk := sectors;
    }

    ghost predicate Ready()
      reads this
    {
      g.Fits(disk)
    }
  }

  // ---- The table as an array ----

  function CopyLba(g: Geometry, copy: nat): int { g.FatLba() + (if copy == 0 then 0 else g.fatSize) }

  function FatAt(g: Geometry, disk: seq<Sector>, copy: nat, c: nat): int
    requires 0 <= CopyLba(g, copy) && CopyLba(g, copy) + c / 256 < |disk|
  {
    GetU16(disk[CopyLba(g, copy) + c / 256], c % 256 * 2)
  }

  /** The links of one FAT copy, indexed by cluster. */
  ghost function Table(g: Geometry, disk: seq<Sector>, copy: nat): (t: seq<int>)
    requires g.Fits(disk) && (copy == 0 || (copy == 1 && g.fatCount > 1))
    ensures |t| == g.Entries()
    ensures forall c :: 0 <= c < |t| ==> 0 <= t[c] < 0x1_0000
  {
    FatRegion(g, disk);
    seq(g.Entries(), c requires 0 <= c < g.Entries() => FatAt(g, disk, copy, c))
  }

  ghost function Fat(g: Geometry, disk: seq<Sector>): (t: seq<int>)
    requires g.Fits(disk)
    ensures |t| == g.Entries()
    ensures forall c :: 0 <= c < |t| ==> 0 <= t[c] < 0x1_0000
  {
    Table(g, disk, 0)
  }

  ghost predicate CopiesAgree(g: Geometry, disk: seq<Sector>)
    requires g.Fits(disk)
  {
    g.fatCount > 1 ==> Table(g, disk, 1) == Table(g, disk, 0)
  }

  lemma FatRegion(g: Geometry, disk: seq<Sector>)
    requires g.Fits(disk)
    ensures 1 <= g.FatLba() && g.FatLba() + g.fatSize <= g.RootLba() <= g.DataLba() <= |disk|
    ensures g.fatCount > 1 ==> g.FatLba() + 2 * g.fatSize <= g.RootLba()
  {
    Layout(g);
    MulBounds(g.Entries() - 2, g.sectorsPerCluster, g.Entries() - 2, g.sectorsPerCluster);
  }

  /** Nothing outside the FAT copies differs. */
  ghost predicate SameOutsideFat(g: Geometry, d0: seq<Sector>, d1: seq<Sector>) {
    && |d0| == |d1|
    && forall lba :: 0 <= lba < |d0| && !(g.FatLba() <= lba < g.RootLba()) ==> d0[lba] == d1[lba]
  }

  // ---- Byte-level access ----

  method FatEntry(v: Volume, cluster: nat) returns (value: int)
    requires v.Ready() && cluster < v.g.Entries()
    ensures value == Fat(v.g, v.disk)[cluster]
  {
    FatRegion(v.g, v.disk);
    ByteOffset(cluster);
    var byteOff := cluster * 2;
    var fatSector := v.g.FatLba() + byteOff / 512;
    var within := byteOff % 512;
    var buf: Sector := v.disk[fatSector];
    value := GetU16(buf, within);
    assert value == FatAt(v.g, v.disk, 0, cluster);
  }

  lemma ByteOffset(cluster: nat)
    ensures cluster * 2 / 512 == cluster / 256 && cluster * 2 % 512 == cluster % 256 * 2
  {
  }

  /** One entry of one copy is overwritten in its sector. */
  lemma StoreInCopy(g: Geometry, disk: seq<Sector>, copy: nat, c: nat, value: int, sector: Sector)
    requires g.Fits(disk) && c < g.Entries() && 0 <= value < 0x1_0000 && (copy == 0 || (copy == 1 && g.fatCount > 1))
    requires 0 <= CopyLba(g, copy) + c / 256 < |disk|
    requires sector == PutU16(disk[CopyLba(g, copy) + c / 256], c % 256 * 2, value)
    ensures var disk' := disk[CopyLba(g, copy) + c / 256 := sector];
      && g.Fits(disk') && SameOutsideFat(g, disk, disk')
      && Table(g, disk', copy) == Table(g, disk, copy)[c := value]
      && (copy == 0 && g.fatCount > 1 ==> Table(g, disk', 1) == Table(g, disk, 1))
      && (copy == 1 ==> Table(g, disk', 0) == Table(g, disk, 0))
  {
    FatRegion(g, disk);
    var disk' := disk[CopyLba(g, copy) + c / 256 := sector];
    forall d | 0 <= d < g.Entries()
      ensures FatAt(g, disk', copy, d) == if d == c then value else FatAt(g, disk, copy, d)
    {
      if d / 256 == c / 256 && d != c {
        assert d % 256 != c % 256;
        EntryApart(disk[CopyLba(g, copy) + c / 256], c % 256 * 2, value, d % 256 * 2);
      }
    }
  }

  lemma EntryApart(sector: Sector, i: nat, value: int, j: nat)
    requires i + 1 < |sector| && j + 1 < |sector| && 0 <= value < 0x1_0000 && (j + 1 < i || i + 1 < j)
    ensures GetU16(PutU16(sector, i, value), j) == GetU16(sector, j)
  {
  }

  method FatSetEntry(v: Volume, cluster: nat, value: int)
    requires v.Ready() && cluster < v.g.Entries() && 0 <= value < 0x1_0000
    modifies v
    ensures v.Ready() && SameOutsideFat(v.g, old(v.disk), v.disk)
    ensures Fat(v.g, v.disk) == Fat(v.g, old(v.disk))[cluster := value]
    ensures CopiesAgree(v.g, old(v.disk)) ==> CopiesAgree(v.g, v.disk)
  {
    hide Table, Geometry.Fits;
    FatRegion(v.g, v.disk);
    ByteOffset(cluster);
    var byteOff := cluster * 2;
    var fatSector := v.g.FatLba() + byteOff / 512;
    var within := byteOff % 512;

    var buf: Sector := v.disk[fatSector];
    buf := PutU16(buf, within, value);
    StoreInCopy(v.g, v.disk, 0, cluster, value, buf);
    v.disk := v.disk[fatSector := buf];

    if v.g.fatCount > 1 {
      var fat2Sector := v.g.FatLba() + v.g.fatSize + byteOff / 512;
      buf := v.disk[fat2Sector];
      buf := PutU16(buf, within, value);
      StoreInCopy(v.g, v.disk, 1, cluster, value, buf);
      v.disk := v.disk[fat2Sector := buf];
    }
  }
}
