/** Where a FAT16 volume keeps its tables, its root directory and its clusters. */
module FatLayout {
  import opened Bytes

  const SECTOR_SIZE := 512
  const ENTRIES_PER_SECTOR := 256
  const EOF_LO := 0xFFF8

  type Sector = s: seq<Byte> | |s| == SECTOR_SIZE witness seq(SECTOR_SIZE, _ => 0)

  /** The fields of the BIOS parameter block that decide the layout. */
  datatype Geometry = Geometry(
    sectorsPerCluster: nat, reservedSectors: nat, fatCount: nat, rootEntryCount: nat, fatSize: nat)
  {
    /** The legal ranges; at most 255 FAT sectors keep every cluster number below EOF_LO. */
    ghost predicate Valid() {
      && 1 <= sectorsPerCluster <= 128
      && 1 <= reservedSectors < 0x1_0000
      && 1 <= fatCount < 0x100
      && rootEntryCount < 0x1_0000
      && 1 <= fatSize <= 255
    }

    function FatLba(): nat { reservedSectors }
    function RootLba(): nat { reservedSectors + Times(fatCount, fatSize) }
    function RootSectors(): nat { (rootEntryCount * 32 + 511) / 512 }
    function DataLba(): nat { RootLba() + RootSectors() }
    function ClusterBytes(): nat { sectorsPerCluster * SECTOR_SIZE }

    /** The number of entries in one FAT copy, which bounds the cluster numbers. */
    function Entries(): nat { fatSize * ENTRIES_PER_SECTOR }

    function ClusterLba(cluster: int): int { DataLba() + (cluster - 2) * sectorsPerCluster }

    ghost predicate IsCluster(c: int) { 2 <= c < Entries() }

    ghost predicate InCluster(lba: int, c: int) {
      IsCluster(c) && ClusterLba(c) <= lba < ClusterLba(c) + sectorsPerCluster
    }

    /** Every cluster the FAT can name lies on the disk. */
    ghost predicate Fits(disk: seq<Sector>) {
      Valid() && ClusterLba(Entries()) <= |disk|
    }
  }

  lemma Layout(g: Geometry)
    requires g.Valid()
    ensures 1 <= g.FatLba() < g.FatLba() + g.fatSize <= g.RootLba() <= g.DataLba()
    ensures g.fatCount > 1 ==> g.FatLba() + 2 * g.fatSize <= g.RootLba()
    ensures g.RootLba() < 0x2_0000
  {
    MulAtLeast(g.fatCount, g.fatSize);
    MulBounds(g.fatCount, g.fatSize, 255, 255);
  }

  lemma ClusterOrder(g: Geometry, c: int, d: int)
    requires g.Valid() && c < d
    ensures g.ClusterLba(c) + g.sectorsPerCluster <= g.ClusterLba(d)
  {
    MulOrder(c - 2, d - 2, g.sectorsPerCluster);
  }

  /** Every sector of a cluster lies on the disk, behind the FATs and the root
      directory, and its address does not wrap. */
  lemma ClusterInData(g: Geometry, lba: int, c: int)
    requires g.Valid() && g.InCluster(lba, c)
    ensures g.DataLba() <= lba < g.ClusterLba(g.Entries()) < 0x1_0000_0000
  {
    Layout(g);
    MulBounds(c - 2, g.sectorsPerCluster, c - 2, g.sectorsPerCluster);
    ClusterOrder(g, c, g.Entries());
    MulBounds(g.Entries() - 2, g.sectorsPerCluster, 65278, 128);
  }

  /** No sector belongs to two clusters. */
  lemma ClusterInjective(g: Geometry, lba: int, c: int, d: int)
    requires g.Valid() && g.InCluster(lba, c) && g.InCluster(lba, d)
    ensures c == d
  {
    if c < d { ClusterOrder(g, c, d); } else if d < c { ClusterOrder(g, d, c); }
  }
}
