/** Directories: the sectors they occupy, the entries in them, listing and lookup. */
module FatDir {
  import opened Bytes
  import opened Collections
  import opened CString
  import opened FatLayout
  import opened FatTable
  import opened FatChain
  import opened FatData
  import opened FatRead
  import opened FatEntryCodec
  import opened FatNames
  import opened VfsNode

  // ---- The sectors of a directory ----

  /** The root (inode 0) is a fixed region; any other directory is a chain of clusters. */
  ghost predicate IsDir(g: Geometry, disk: seq<Sector>, inode: int, ch: seq<int>)
    requires g.Fits(disk)
  {
    0 <= inode < 0x1_0000 && (inode != 0 ==> ch != [] && Clusters(g, ch) && Chain(Fat(g, disk), inode, ch))
  }

  function DirSectors(g: Geometry, inode: int, ch: seq<int>): nat {
    if inode == 0 then g.RootSectors() else Times(|ch|, g.sectorsPerCluster)
  }

  lemma SectorCluster(g: Geometry, ch: seq<int>, n: nat)
    requires g.Valid() && n < Times(|ch|, g.sectorsPerCluster)
    ensures 0 <= n / g.sectorsPerCluster < |ch| && 0 <= n % g.sectorsPerCluster < g.sectorsPerCluster
  {
    DivMod(n, g.sectorsPerCluster);
    MulCancel(n / g.sectorsPerCluster, |ch|, g.sectorsPerCluster);
  }

  /** The address of the n-th sector of a directory. */
  function DirSector(g: Geometry, inode: int, ch: seq<int>, n: nat): int
    requires g.sectorsPerCluster > 0 && (inode != 0 ==> n / g.sectorsPerCluster < |ch|)
  {
    if inode == 0 then g.RootLba() + n
    else g.ClusterLba(ch[n / g.sectorsPerCluster]) + n % g.sectorsPerCluster
  }

  lemma DirSectorOnDisk(g: Geometry, disk: seq<Sector>, inode: int, ch: seq<int>, n: nat)
    requires g.Fits(disk) && IsDir(g, disk, inode, ch) && n < DirSectors(g, inode, ch)
    ensures g.sectorsPerCluster > 0 && (inode != 0 ==> 0 <= n / g.sectorsPerCluster < |ch|)
    ensures inode != 0 ==> g.InCluster(DirSector(g, inode, ch, n), ch[n / g.sectorsPerCluster])
    ensures inode == 0 ==> DirSector(g, inode, ch, n) < g.DataLba()
    ensures 1 <= g.RootLba() <= DirSector(g, inode, ch, n) < |disk|
  {
    FatRegion(g, disk);
    if inode != 0 {
      SectorCluster(g, ch, n);
      ClusterOnDisk(g, disk, ch[n / g.sectorsPerCluster]);
    }
  }

  /** dir_sector_lba: the n-th sector, or 0 past the end of the directory. */
  method DirSectorLba(v: Volume, inode: int, n: nat, ghost ch: seq<int>) returns (lba: int)
    requires v.Ready() && IsDir(v.g, v.disk, inode, ch)
    ensures lba != 0 <==> n < DirSectors(v.g, inode, ch)
    ensures lba != 0 && inode != 0 ==> n / v.g.sectorsPerCluster < |ch|
    ensures lba != 0 ==> lba == DirSector(v.g, inode, ch, n)
    ensures lba != 0 ==> v.g.RootLba() <= lba < |v.disk|
  {
    FatRegion(v.g, v.disk);
    if n < DirSectors(v.g, inode, ch) { DirSectorOnDisk(v.g, v.disk, inode, ch, n); }
    if inode == 0 {
      if n >= v.g.RootSectors() { return 0; }
      return v.g.RootLba() + n;
    }
    var spc := v.g.sectorsPerCluster;
    DivMod(n, spc);
    var clusterIdx := n / spc;
    var sectInCl := n % spc;
    var cluster, inside := SkipClusters(v, inode, clusterIdx, ch);
    if n >= Times(|ch|, spc) {
      PastEnd(n, |ch|, spc);
    }
    if !inside { return 0; }
    if clusterIdx < |ch| { assert LinkAt(Fat(v.g, v.disk), ch, clusterIdx); }
    if cluster < 2 || cluster >= EOF_LO { return 0; }
    return v.g.ClusterLba(cluster) + sectInCl;
  }

  lemma PastEnd(n: nat, m: nat, k: nat)
    requires 0 < k && Times(m, k) <= n
    ensures m <= n / k
  {
    DivMod(n, k);
    if n / k < m { MulOrder(n / k, m, k); }
  }

  // ---- The entries of a directory ----

  /** Entry j of the directory is entry j % 16 of its sector j / 16. */
  ghost function DirEntryAt(g: Geometry, disk: seq<Sector>, inode: int, ch: seq<int>, j: nat): (e: DirEntry)
    requires g.Fits(disk) && IsDir(g, disk, inode, ch) && j < DirSectors(g, inode, ch) * 16
    ensures e.Shaped()
  {
    DirSectorOnDisk(g, disk, inode, ch, j / 16);
    EntryAt(disk[DirSector(g, inode, ch, j / 16)], j % 16)
  }

  predicate Shapes(es: seq<DirEntry>) { forall j :: 0 <= j < |es| ==> es[j].Shaped() }

  ghost function Entries(g: Geometry, disk: seq<Sector>, inode: int, ch: seq<int>): (es: seq<DirEntry>)
    requires g.Fits(disk) && IsDir(g, disk, inode, ch)
    ensures |es| == DirSectors(g, inode, ch) * 16
    ensures Shapes(es)
  {
    seq(DirSectors(g, inode, ch) * 16,
        j requires 0 <= j < DirSectors(g, inode, ch) * 16 => DirEntryAt(g, disk, inode, ch, j))
  }

  /** Deleted entries, long-name pieces and volume labels are passed over. */
  predicate Skipped(e: DirEntry)
    requires e.Shaped()
  {
    e.name[0] == DELETED || e.attributes == ATTR_LFN || e.HasAttr(ATTR_VOLUME_ID)
  }

  predicate Shown(e: DirEntry)
    requires e.Shaped()
  {
    !Skipped(e) && e.name[0] != DOT
  }

  /** What a listing shows: the visible entries before the end mark, in order. */
  function Listed(es: seq<DirEntry>): (shown: seq<DirEntry>)
    requires Shapes(es)
    ensures Shapes(shown)
  {
    if es == [] || es[0].IsEnd() then []
    else (if Shown(es[0]) then [es[0]] else []) + Listed(es[1..])
  }

  datatype Dirent = Dirent(name: seq<Byte>, inode: int, flags: int)

  function DirentOf(e: DirEntry): Dirent
    requires e.Shaped()
  {
    Dirent(Text(Text83(e)), e.firstCluster, if e.IsDirectory() then VFS_DIR else VFS_FILE)
  }

  function DirentAt(listing: seq<DirEntry>, index: nat): Option<Dirent>
    requires Shapes(listing)
  {
    if index < |listing| then Some(DirentOf(listing[index])) else None
  }

  method RenderName(e: DirEntry) returns (name: seq<Byte>)
    requires e.Shaped()
    ensures name == Text(Text83(e))
  {
    var buf := new Byte[13];
    Format83(e, buf);
    TextCut(Text83(e), buf[|Text83(e)| + 1..]);
    assert buf[..] == Text83(e) + [0] + buf[|Text83(e)| + 1..];
    name := Text(buf[..]);
  }

  lemma {:induction false} TextCut(s: seq<Byte>, t: seq<Byte>)
    ensures Text(s + [0] + t) == Text(s)
  {
    LengthIs(s + [0] + t, Length(s));
  }

  lemma LengthIs(s: seq<Byte>, n: nat)
    requires n < |s| && s[n] == 0 && forall i :: 0 <= i < n ==> s[i] != 0
    ensures Length(s) == n
  {
  }

  /** fat16_vfs_readdir returns the index-th entry of the listing, or nothing past its end. */
  method VfsReadDir(v: Volume, inode: int, index: nat, ghost ch: seq<int>) returns (r: Option<Dirent>)
    requires v.Ready() && IsDir(v.g, v.disk, inode, ch)
    ensures var listing := Listed(Entries(v.g, v.disk, inode, ch));
      r == DirentAt(listing, index)
  {
    hide Listed, SectorAt, Geometry.Fits, IsDir, EntryAt;
    ghost var es := Entries(v.g, v.disk, inode, ch);
    ghost var seen: seq<DirEntry> := [];
    var valid := 0;
    var s := 0;
    assert es[0..] == es;
    while true
      invariant s <= DirSectors(v.g, inode, ch)
      invariant s * 16 <= |es| && SeenUpTo(es, s * 16, seen) && |seen| == valid <= index
      decreases DirSectors(v.g, inode, ch) - s
    {
      var lba := DirSectorLba(v, inode, s, ch);
      if lba == 0 {
        SeenAll(es, seen);
        return None;
      }
      SectorEntries(v.g, v.disk, inode, ch, s);
      var done;
      done, r, valid, seen := ListSector(v.disk[lba], s, index, valid, seen, es);
      if done { return; }
      s := s + 1;
    }
  }

  /** The sixteen entries of one sector are a stretch of the directory's entries. */
  lemma SectorEntries(g: Geometry, disk: seq<Sector>, inode: int, ch: seq<int>, s: nat)
    requires g.Fits(disk) && IsDir(g, disk, inode, ch) && s < DirSectors(g, inode, ch)
    ensures inode != 0 ==> s / g.sectorsPerCluster < |ch|
    ensures 0 <= DirSector(g, inode, ch, s) < |disk|
    ensures SectorAt(Entries(g, disk, inode, ch), s, disk[DirSector(g, inode, ch, s)])
  {
    DirSectorOnDisk(g, disk, inode, ch, s);
    var es := Entries(g, disk, inode, ch);
    forall i | 0 <= i < 16 ensures es[s * 16 + i] == EntryAt(disk[DirSector(g, inode, ch, s)], i) {
      assert (s * 16 + i) / 16 == s && (s * 16 + i) % 16 == i;
    }
  }

  ghost predicate SectorAt(es: seq<DirEntry>, s: nat, sector: Sector) {
    s * 16 + 16 <= |es| && forall i :: 0 <= i < 16 ==> es[s * 16 + i] == EntryAt(sector, i)
  }

  /** `seen` is what the listing shows of the first k entries. */
  ghost predicate SeenUpTo(es: seq<DirEntry>, k: nat, seen: seq<DirEntry>)
    requires Shapes(es) && k <= |es|
  {
    Listed(es) == seen + Listed(es[k..])
  }

  lemma SeenAll(es: seq<DirEntry>, seen: seq<DirEntry>)
    requires Shapes(es) && SeenUpTo(es, |es|, seen)
    ensures Listed(es) == seen
  {
  }

  lemma ListUnfold(es: seq<DirEntry>, k: nat)
    requires Shapes(es) && k < |es|
    ensures Listed(es[k..]) ==
      if es[k].IsEnd() then [] else (if Shown(es[k]) then [es[k]] else []) + Listed(es[k + 1..])
  {
    assert es[k..][1..] == es[k + 1..];
  }

  lemma ListStep(es: seq<DirEntry>, k: nat, seen: seq<DirEntry>)
    requires Shapes(es) && k < |es| && SeenUpTo(es, k, seen)
    ensures es[k].IsEnd() ==> Listed(es) == seen
    ensures !es[k].IsEnd() && !Shown(es[k]) ==> SeenUpTo(es, k + 1, seen)
    ensures !es[k].IsEnd() && Shown(es[k]) ==> SeenUpTo(es, k + 1, seen + [es[k]])
  {
    ListUnfold(es, k);
    AppendOne(seen, es[k], Listed(es[k + 1..]));
  }

  lemma AppendOne<T>(a: seq<T>, x: T, b: seq<T>)
    ensures a + ([x] + b) == (a + [x]) + b
    ensures a + ([] + b) == a + b && a + [] == a
  {
  }

  /** Lists one sector: stops at the wanted entry or at the end mark. */
  method ListSector(sector: Sector, ghost s: nat, index: nat, valid0: nat, ghost seen0: seq<DirEntry>,
                    ghost es: seq<DirEntry>)
    returns (done: bool, r: Option<Dirent>, valid: nat, ghost seen: seq<DirEntry>)
    requires Shapes(es) && SectorAt(es, s, sector)
    requires SeenUpTo(es, s * 16, seen0) && |seen0| == valid0 <= index
    ensures done ==> r == DirentAt(Listed(es), index)
    ensures !done ==> SeenUpTo(es, s * 16 + 16, seen) && |seen| == valid <= index
  {
    valid, seen, done, r := valid0, seen0, false, None;
    for i := 0 to 16
      invariant SeenUpTo(es, s * 16 + i, seen) && |seen| == valid <= index
    {
      var e := EntryAt(sector, i);
      assert e == es[s * 16 + i];
      ListStep(es, s * 16 + i, seen);
      if e.IsEnd() { return true, None, valid, seen; }
      if e.name[0] == DELETED || e.attributes == ATTR_LFN { continue; }
      if e.HasAttr(ATTR_VOLUME_ID) { continue; }
      if e.name[0] == DOT { continue; }
      if valid == index {
        var name := RenderName(e);
        assert Listed(es)[index] == e;
        return true, Some(Dirent(name, e.firstCluster, if e.IsDirectory() then VFS_DIR else VFS_FILE)), valid, seen;
      }
      valid := valid + 1;
      seen := seen + [e];
    }
  }

  // ---- Lookup ----

  predicate Matches(e: DirEntry, name: seq<Byte>)
    requires e.Shaped()
  {
    SameText(Text83(e), name)
  }

  /** Lookup stops at the end mark or at the first entry that is not skipped and matches. */
  predicate Stops(e: DirEntry, name: seq<Byte>)
    requires e.Shaped()
  {
    e.IsEnd() || (!Skipped(e) && Matches(e, name))
  }

  function Scan(es: seq<DirEntry>, name: seq<Byte>): (k: nat)
    requires Shapes(es)
    ensures k <= |es| && (k < |es| ==> Stops(es[k], name))
    ensures forall j :: 0 <= j < k ==> !Stops(es[j], name)
  {
    if es == [] || Stops(es[0], name) then 0 else
      var k := Scan(es[1..], name);
      assert forall j :: 1 <= j < 1 + k ==> es[j] == es[1..][j - 1];
      1 + k
  }

  predicate Found(es: seq<DirEntry>, name: seq<Byte>)
    requires Shapes(es)
  {
    Scan(es, name) < |es| && !es[Scan(es, name)].IsEnd()
  }

  method NameMatch(e: DirEntry, name: seq<Byte>) returns (m: bool)
    requires e.Shaped()
    ensures m <==> Matches(e, name)
  {
    var buf := new Byte[13];
    Format83(e, buf);
    TextCut(Text83(e), buf[|Text83(e)| + 1..]);
    assert buf[..] == Text83(e) + [0] + buf[|Text83(e)| + 1..];
    var r := Strcasecmp(buf[..], name);
    m := r == 0;
  }

  /** The node that stands for entry j of a directory. */
  ghost predicate NodeFor(g: Geometry, disk: seq<Sector>, inode: int, ch: seq<int>, j: nat, node: Node)
    requires g.Fits(disk) && IsDir(g, disk, inode, ch) && j < DirSectors(g, inode, ch) * 16
    reads node
  {
    var e := DirEntryAt(g, disk, inode, ch, j);
    DirSectorOnDisk(g, disk, inode, ch, j / 16);
    && node.name == Text(Text83(e)) && node.inode == e.firstCluster
    && node.dirLba == DirSector(g, inode, ch, j / 16) && node.dirIndex == j % 16
    && node.flags == (if e.IsDirectory() then VFS_DIR else VFS_FILE)
    && node.size == (if e.IsDirectory() then 0 else e.fileSize)
  }

  /** fat16_vfs_finddir returns a new node for the first match, or nothing when there is
      none before the end of the directory. `memory` says whether kmalloc finds room. */
  method VfsFindDir(v: Volume, inode: int, name: seq<Byte>, memory: bool, ghost ch: seq<int>) returns (node: Node?)
    requires v.Ready() && IsDir(v.g, v.disk, inode, ch)
    ensures var es := Entries(v.g, v.disk, inode, ch);
      if memory && Found(es, name)
      then node != null && fresh(node) && NodeFor(v.g, v.disk, inode, ch, Scan(es, name), node)
      else node == null
  {
    ghost var es := Entries(v.g, v.disk, inode, ch);
    var s := 0;
    while true
      invariant s <= DirSectors(v.g, inode, ch)
      invariant s * 16 <= Scan(es, name)
      decreases DirSectors(v.g, inode, ch) - s
    {
      var lba := DirSectorLba(v, inode, s, ch);
      if lba == 0 { return null; }
      SectorEntries(v.g, v.disk, inode, ch, s);
      var i := FindInSector(v.disk[lba], name, s, es);
      if i < 16 {
        assert (s * 16 + i) / 16 == s && (s * 16 + i) % 16 == i;
        var e := EntryAt(v.disk[lba], i);
        if e.IsEnd() || !memory { return null; }
        var text := RenderName(e);
        if e.IsDirectory() {
          node := new Node(text, VFS_DIR, 0, e.firstCluster, lba, i);
        } else {
          node := new Node(text, VFS_FILE, e.fileSize, e.firstCluster, lba, i);
        }
        return;
      }
      s := s + 1;
    }
  }

  /** The first entry of the sector where lookup stops, or 16. */
  method FindInSector(sector: Sector, name: seq<Byte>, ghost s: nat, ghost es: seq<DirEntry>) returns (i: nat)
    requires Shapes(es) && SectorAt(es, s, sector) && s * 16 <= Scan(es, name)
    ensures i <= 16
    ensures i < 16 ==> Scan(es, name) == s * 16 + i
    ensures i == 16 ==> s * 16 + 16 <= Scan(es, name)
  {
    i := 0;
    while i < 16
      invariant i <= 16 && s * 16 + i <= Scan(es, name)
    {
      var e := EntryAt(sector, i);
      assert e == es[s * 16 + i];
      if e.IsEnd() { return; }
      if !(e.name[0] == DELETED || e.attributes == ATTR_LFN) && !e.HasAttr(ATTR_VOLUME_ID) {
        var matches := NameMatch(e, name);
        if matches { return; }
      }
      i := i + 1;
    }
  }
}
