/** Creating files and directories. */
module FatCreate {
  import opened Bytes
  import opened CString
  import opened FatLayout
  import opened FatTable
  import opened FatData
  import opened FatEntryCodec
  import opened FatNames
  import opened FatDir

  function ZeroSector(): Sector { seq(SECTOR_SIZE, _ => 0) }

  /** The sector with all 32 bytes of entry i replaced. */
  function PutEntry(s: Sector, i: nat, e: DirEntry): (t: Sector)
    requires i < 16 && e.Shaped() && 0 <= e.attributes < 0x100
    requires 0 <= e.firstCluster < 0x1_0000 && 0 <= e.fileSize < 0x1_0000_0000
  {
    var attr: Byte := e.attributes;
    var fields := e.name + e.ext + [attr] + seq(14, _ => 0);
    PutLocation(s[..i * 32] + fields + s[i * 32 + 26..], i, e.firstCluster, e.fileSize)
  }

  lemma EntryPut(s: Sector, i: nat, e: DirEntry)
    requires i < 16 && e.Shaped() && 0 <= e.attributes < 0x100
    requires 0 <= e.firstCluster < 0x1_0000 && 0 <= e.fileSize < 0x1_0000_0000
    ensures EntryAt(PutEntry(s, i, e), i) == e
    ensures forall j :: 0 <= j < 16 && j != i ==> EntryAt(PutEntry(s, i, e), j) == EntryAt(s, j)
  {
    var attr: Byte := e.attributes;
    var fields := e.name + e.ext + [attr] + seq(14, _ => 0);
    var t: Sector := s[..i * 32] + fields + s[i * 32 + 26..];
    LocationPut(t, i, e.firstCluster, e.fileSize);
    FieldsPut(s, i, e.name, e.ext, attr, t);
  }

  lemma FieldsPut(s: Sector, i: nat, name: seq<Byte>, ext: seq<Byte>, attr: Byte, t: Sector)
    requires i < 16 && |name| == 8 && |ext| == 3
    requires t == s[..i * 32] + (name + ext + [attr] + seq(14, _ => 0)) + s[i * 32 + 26..]
    ensures var e := EntryAt(t, i); e.name == name && e.ext == ext && e.attributes == attr
    ensures forall j :: 0 <= j < 16 && j != i ==> EntryAt(t, j) == EntryAt(s, j)
  {
    assert t[i * 32..i * 32 + 8] == name;
    assert t[i * 32 + 8..i * 32 + 11] == ext;
    forall j | 0 <= j < 16 && j != i ensures EntryAt(t, j) == EntryAt(s, j) {
      assert forall k :: j * 32 <= k < j * 32 + 32 ==> t[k] == s[k];
    }
  }

  /** The first slot that is unused or deleted, or the length. */
  function FirstFree(es: seq<DirEntry>): (k: nat)
    requires Shapes(es)
    ensures k <= |es| && (k < |es| ==> es[k].IsFreeSlot())
    ensures forall j :: 0 <= j < k ==> !es[j].IsFreeSlot()
  {
    if es == [] || es[0].IsFreeSlot() then 0 else
      var k := FirstFree(es[1..]);
      assert forall j :: 1 <= j < 1 + k ==> es[j] == es[1..][j - 1];
      1 + k
  }

  function MadeEntry(name: seq<Byte>, first: int, size: int, attributes: int): (e: DirEntry)
    requires Accepted(name)
    ensures e.Shaped()
  {
    DirEntry(Field(BasePart(name), 8), Field(ExtPart(name), 3), attributes, first, size)
  }

  /** fat16_write_dir_entry fills the first free slot of the directory; it fails, changing
      nothing, exactly when the name does not fit 8.3 or no slot is free. */
  method WriteDirEntry(v: Volume, inode: int, name: seq<Byte>, first: int, size: int, attributes: int,
                       ghost ch: seq<int>)
    returns (r: int)
    requires v.Ready() && IsDir(v.g, v.disk, inode, ch) && Plain(name)
    requires 0 <= first < 0x1_0000 && 0 <= size < 0x1_0000_0000 && 0 <= attributes < 0x100
    modifies v
    ensures var es := Entries(v.g, old(v.disk), inode, ch); var k := FirstFree(es);
      if Accepted(name) && k < |es| then
        r == 0 && EntryWritten(v.g, old(v.disk), v.disk, inode, ch, k, MadeEntry(name, first, size, attributes))
      else r == -1 && v.disk == old(v.disk)
  {
    hide FirstFree, Field, Accepted, IsDir, Geometry.Fits, EntryAt, PutEntry;
    var name83, ext83 := new Byte[8], new Byte[3];
    var ok := FormatName83(name, name83, ext83);
    if ok < 0 { return -1; }
    var e := DirEntry(name83[..], ext83[..], attributes, first, size);
    ghost var es := Entries(v.g, v.disk, inode, ch);
    var s := 0;
    while true
      invariant v.disk == old(v.disk) && s <= DirSectors(v.g, inode, ch)
      invariant s * 16 <= FirstFree(es)
      decreases DirSectors(v.g, inode, ch) - s
    {
      var lba := DirSectorLba(v, inode, s, ch);
      if lba == 0 { return -1; }
      SectorEntries(v.g, v.disk, inode, ch, s);
      var i := FreeInSector(v.disk[lba], s, es);
      if i < 16 {
        assert (s * 16 + i) / 16 == s && (s * 16 + i) % 16 == i;
        v.disk := v.disk[lba := PutEntry(v.disk[lba], i, e)];
        return 0;
      }
      s := s + 1;
    }
  }

  ghost predicate EntryWritten(g: Geometry, d0: seq<Sector>, d1: seq<Sector>, inode: int, ch: seq<int>, k: nat,
                               e: DirEntry)
    requires g.Fits(d0) && IsDir(g, d0, inode, ch) && k < DirSectors(g, inode, ch) * 16
    requires e.Shaped() && 0 <= e.attributes < 0x100
    requires 0 <= e.firstCluster < 0x1_0000 && 0 <= e.fileSize < 0x1_0000_0000
  {
    DirSectorOnDisk(g, d0, inode, ch, k / 16);
    var lba := DirSector(g, inode, ch, k / 16);
    d1 == d0[lba := PutEntry(d0[lba], k % 16, e)]
  }

  method FreeInSector(sector: Sector, ghost s: nat, ghost es: seq<DirEntry>) returns (i: nat)
    requires Shapes(es) && SectorAt(es, s, sector) && s * 16 <= FirstFree(es)
    ensures i <= 16
    ensures i < 16 ==> FirstFree(es) == s * 16 + i
    ensures i == 16 ==> s * 16 + 16 <= FirstFree(es)
  {
    i := 0;
    while i < 16
      invariant i <= 16 && s * 16 + i <= FirstFree(es)
    {
      var e := EntryAt(sector, i);
      assert e == es[s * 16 + i];
      if e.name[0] == 0 || e.name[0] == DELETED { return; }
      i := i + 1;
    }
  }

  // ---- The first cluster of a new directory ----

  const DOT_NAME: seq<Byte> := [DOT, SPACE, SPACE, SPACE, SPACE, SPACE, SPACE, SPACE]
  const DOTDOT_NAME: seq<Byte> := [DOT, DOT, SPACE, SPACE, SPACE, SPACE, SPACE, SPACE]
  const BLANK_EXT: seq<Byte> := [SPACE, SPACE, SPACE]

  function DotEntry(cluster: int): DirEntry { DirEntry(DOT_NAME, BLANK_EXT, ATTR_DIRECTORY, cluster, 0) }
  function DotDotEntry(parent: int): DirEntry { DirEntry(DOTDOT_NAME, BLANK_EXT, ATTR_DIRECTORY, parent, 0) }

  function DotSector(cluster: int, parent: int): Sector
    requires 0 <= cluster < 0x1_0000 && 0 <= parent < 0x1_0000
  {
    PutEntry(PutEntry(ZeroSector(), 0, DotEntry(cluster)), 1, DotDotEntry(parent))
  }

  /** Cluster c holds an empty directory: "." and ".." and then nothing. */
  ghost predicate EmptyDir(g: Geometry, disk: seq<Sector>, c: int, parent: int)
    requires g.Fits(disk) && g.IsCluster(c) && 0 <= parent < 0x1_0000
  {
    ClusterOnDisk(g, disk, c);
    && disk[g.ClusterLba(c)] == DotSector(c, parent)
    && forall n :: g.ClusterLba(c) < n < g.ClusterLba(c) + g.sectorsPerCluster ==> disk[n] == ZeroSector()
  }

  method InitDirCluster(v: Volume, cluster: int, parent: int)
    requires v.Ready() && v.g.IsCluster(cluster) && 0 <= parent < 0x1_0000
    modifies v
    ensures v.Ready() && |v.disk| == |old(v.disk)| && EmptyDir(v.g, v.disk, cluster, parent)
    ensures forall lba :: 0 <= lba < |v.disk| && !v.g.InCluster(lba, cluster) ==> v.disk[lba] == old(v.disk)[lba]
  {
    ClusterOnDisk(v.g, v.disk, cluster);
    ClusterInData(v.g, v.g.ClusterLba(cluster), cluster);
    var lba := v.g.ClusterLba(cluster);
    for s := 0 to v.g.sectorsPerCluster
      invariant |v.disk| == |old(v.disk)|
      invariant forall n :: lba <= n < lba + s ==> v.disk[n] == ZeroSector()
      invariant forall l :: 0 <= l < |v.disk| && !(lba <= l < lba + s) ==> v.disk[l] == old(v.disk)[l]
    {
      v.disk := v.disk[lba + s := ZeroSector()];
    }
    v.disk := v.disk[lba := DotSector(cluster, parent)];
  }

  lemma ZeroEntry(i: nat)
    requires i < 16
    ensures EntryAt(ZeroSector(), i).IsEnd()
  {
  }

  /** The entries of a new directory's first sector. */
  lemma DotEntries(c: int, parent: int, i: nat)
    requires 0 <= c < 0x1_0000 && 0 <= parent < 0x1_0000 && i < 16
    ensures var e := EntryAt(DotSector(c, parent), i);
      if i == 0 then e == DotEntry(c) else if i == 1 then e == DotDotEntry(parent) else e.IsEnd()
  {
    EntryPut(ZeroSector(), 0, DotEntry(c));
    EntryPut(PutEntry(ZeroSector(), 0, DotEntry(c)), 1, DotDotEntry(parent));
    ZeroEntry(i);
  }
}
