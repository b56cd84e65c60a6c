/** Mounting: reading the boot sector and computing the layout. */
module FatMount {
  import opened Bytes
  import opened FatLayout

  /** The fields of the BIOS parameter block that the driver keeps, at their byte offsets. */
  function ParseBpb(boot: Sector): Geometry {
    var spc: nat, fats: nat := boot[0x0D], boot[0x10];
    Geometry(spc, GetU16(boot, 0x0E), fats, GetU16(boot, 0x11), GetU16(boot, 0x16))
  }

  /** The fields lie in the boot sector so: sectors per cluster at 13, reserved sectors at 14, FAT
      copies at 16, root entries at 17, sectors per FAT at 22. */
  ghost predicate Describes(b: Sector, g: Geometry) {
    && b[13] == g.sectorsPerCluster && b[16] == g.fatCount
    && g.reservedSectors < 0x1_0000 && b[14..16] == Le16(g.reservedSectors)
    && g.rootEntryCount < 0x1_0000 && b[17..19] == Le16(g.rootEntryCount)
    && g.fatSize < 0x1_0000 && b[22..24] == Le16(g.fatSize)
  }

  lemma ParseDescribes(b: Sector)
    ensures Describes(b, ParseBpb(b))
    ensures GetU16(b, 11) == 512 <==> b[11..13] == [0, 2]
    ensures GetU16(b, 22) != 0 <==> b[22..24] != [0, 0]
  {
    hide GetU16;
    GetIs16(b, 14, GetU16(b, 14));
    GetIs16(b, 17, GetU16(b, 17));
    GetIs16(b, 22, GetU16(b, 22));
    GetIs16(b, 11, 512);
    GetIs16(b, 22, 0);
  }

  /** fat16_init refuses a bad signature, another sector size and a FAT32 volume. */
  method FatInit(disk: seq<Sector>) returns (r: int, g: Geometry)
    requires |disk| > 0
    ensures r == 0 <==> disk[0][510] == 0x55 && disk[0][511] == 0xAA
                        && disk[0][11..13] == [0, 2] && disk[0][22..24] != [0, 0]
    ensures r == 0 || r == -1
    ensures r == 0 ==> Describes(disk[0], g)
  {
    var sector := disk[0];
    ParseDescribes(sector);
    g := ParseBpb(sector);
    if sector[510] != 0x55 || sector[511] != 0xAA { return -1, g; }
    if GetU16(sector, 0x0B) != 512 { return -1, g; }
    if g.fatSize == 0 { return -1, g; }
    return 0, g;
  }

  /** The regions follow one another without gap or overlap, the root directory has room
      for every entry and less than a sector to spare, and no address of the layout wraps. */
  lemma RegionsInOrder(g: Geometry)
    requires g.Valid()
    ensures 0 < g.FatLba() == g.reservedSectors && g.RootLba() == g.FatLba() + Times(g.fatCount, g.fatSize)
    ensures g.DataLba() == g.RootLba() + g.RootSectors() && g.Entries() * 2 == g.fatSize * 512
    ensures g.rootEntryCount <= g.RootSectors() * 16 < g.rootEntryCount + 16
    ensures g.ClusterLba(2) == g.DataLba()
    ensures forall c :: g.ClusterLba(c + 1) == g.ClusterLba(c) + g.sectorsPerCluster
    ensures g.ClusterLba(g.Entries()) < 0x1_0000_0000
  {
    Layout(g);
    if g.Entries() > 2 { ClusterInData(g, g.ClusterLba(2), 2); }
  }
}
