/** Lookup on a FAT volume as a function, and what it leads to. */
module FatLookup {
  import opened Bytes
  import opened CString
  import opened FatLayout
  import opened FatEntryCodec
  import opened FatNames
  import opened FatDir
  import opened FatVolume
  import opened VfsNode
  import opened VfsPath

  /** What a node for entry j of a directory holds. */
  function InfoAt(g: Geometry, inode: int, ch: seq<int>, j: nat, e: DirEntry): Info
    requires e.Shaped() && g.sectorsPerCluster > 0 && (inode != 0 ==> j / 16 / g.sectorsPerCluster < |ch|)
  {
    Info(Text(Text83(e)), if e.IsDirectory() then VFS_DIR else VFS_FILE, if e.IsDirectory() then 0 else e.fileSize,
         e.firstCluster, DirSector(g, inode, ch, j / 16), j % 16)
  }

  ghost function DirChain(g: Geometry, disk: seq<Sector>, own: Ownership, inode: int): (ch: seq<int>)
    requires LeadsToDir(g, disk, own, inode)
    ensures DirOf(g, disk, own, inode, ch)
  {
    var ch :| DirOf(g, disk, own, inode, ch);
    ch
  }

  /** finddir on a sound volume: the first entry of the directory that matches. */
  ghost function LookUp(g: Geometry, disk: seq<Sector>, own: Ownership, inode: int, name: seq<Byte>): Lookup
    requires Sound(g, disk, own)
  {
    if LeadsToDir(g, disk, own, inode) then
      var ch := DirChain(g, disk, own, inode);
      DirOfIsDir(g, disk, own, inode, ch);
      var es := Entries(g, disk, inode, ch);
      if Found(es, name) then
        DirSectorOnDisk(g, disk, inode, ch, Scan(es, name) / 16);
        Hit(InfoAt(g, inode, ch, Scan(es, name), es[Scan(es, name)]))
      else Missing
    else Missing
  }

  ghost function FatFind(g: Geometry, disk: seq<Sector>, own: Ownership): FindDir
    requires Sound(g, disk, own)
  {
    (inode: int, name: seq<Byte>) => if Sound(g, disk, own) then LookUp(g, disk, own, inode, name) else Missing
  }

  /** The node that the driver makes is the one the function names. */
  lemma NodeIsInfo(g: Geometry, disk: seq<Sector>, inode: int, ch: seq<int>, name: seq<Byte>, node: Node)
    requires g.Fits(disk) && IsDir(g, disk, inode, ch) && Found(Entries(g, disk, inode, ch), name)
    requires NodeFor(g, disk, inode, ch, Scan(Entries(g, disk, inode, ch), name), node)
    ensures var es := Entries(g, disk, inode, ch); var j := Scan(es, name);
      g.sectorsPerCluster > 0 && (inode != 0 ==> j / 16 / g.sectorsPerCluster < |ch|)
      && InfoOf(node) == InfoAt(g, inode, ch, j, es[j])
  {
    DirSectorOnDisk(g, disk, inode, ch, Scan(Entries(g, disk, inode, ch), name) / 16);
  }

  /** Where the entry of a node lies. */
  function Place(i: Info): Slot { Slot(i.dirLba, i.dirIndex) }

  /** The node is that of a live file. */
  ghost predicate FileInfo(g: Geometry, disk: seq<Sector>, own: Ownership, i: Info) {
    && LiveFile(g, disk, own, Place(i))
    && i.inode == EntryOf(g, disk, Place(i)).firstCluster && i.size == EntryOf(g, disk, Place(i)).fileSize
  }

  /** A node stands for a directory, or for a live file. */
  ghost predicate Known(g: Geometry, disk: seq<Sector>, own: Ownership, i: Info) {
    if HasFlag(i.flags, VFS_DIR) then LeadsToDir(g, disk, own, i.inode) else FileInfo(g, disk, own, i)
  }

  lemma RootKnown(g: Geometry, disk: seq<Sector>, own: Ownership, i: Info)
    requires i.flags == VFS_DIR && i.inode == 0
    ensures Known(g, disk, own, i)
  {
    assert DirOf(g, disk, own, 0, []);
  }

  /** Where lookup has found what it found. */
  lemma LookUpAt(g: Geometry, disk: seq<Sector>, own: Ownership, inode: int, name: seq<Byte>) returns (t: Slot)
    requires Sound(g, disk, own) && LookUp(g, disk, own, inode, name).Hit?
    ensures Placed(g, disk, t) && DirLba(g, disk, own, t.lba)
    ensures var e, i := EntryOf(g, disk, t), LookUp(g, disk, own, inode, name).info;
      !e.IsEnd() && !Skipped(e) && i.inode == e.firstCluster && Place(i) == t
      && (if e.IsDirectory() then i.flags == VFS_DIR else i.flags == VFS_FILE && i.size == e.fileSize)
  {
    hide Sound, EntryAt, Text83, Entries, DirLba, Matches;
    var ch := DirChain(g, disk, own, inode);
    SoundFits(g, disk, own);
    DirOfIsDir(g, disk, own, inode, ch);
    var j := Scan(Entries(g, disk, inode, ch), name);
    SlotAtEntry(g, disk, own, inode, ch, j);
    t := SlotAt(g, inode, ch, j);
  }

  /** What lookup finds is a directory or a live file. */
  lemma LookUpKnown(g: Geometry, disk: seq<Sector>, own: Ownership, inode: int, name: seq<Byte>)
    requires Sound(g, disk, own) && LookUp(g, disk, own, inode, name).Hit?
    ensures Known(g, disk, own, LookUp(g, disk, own, inode, name).info)
  {
    hide Sound, LookUp, LeadsToDir, LiveFile, EntryAt, DirLba, Skipped;
    var t := LookUpAt(g, disk, own, inode, name);
    EntryKnown(g, disk, own, t);
  }

  lemma SoundFits(g: Geometry, disk: seq<Sector>, own: Ownership)
    requires Sound(g, disk, own)
    ensures g.Fits(disk)
  {
  }

  lemma EntryKnown(g: Geometry, disk: seq<Sector>, own: Ownership, t: Slot)
    requires Sound(g, disk, own) && Placed(g, disk, t) && DirLba(g, disk, own, t.lba)
    requires !EntryOf(g, disk, t).IsEnd() && !Skipped(EntryOf(g, disk, t))
    ensures if EntryOf(g, disk, t).IsDirectory() then LeadsToDir(g, disk, own, EntryOf(g, disk, t).firstCluster)
            else LiveFile(g, disk, own, t)
  {
    if !Dotted(EntryOf(g, disk, t)) {
      assert t in own;
      if EntryOf(g, disk, t).IsDirectory() { OwnedDir(g, disk, own, t); }
    }
  }

  /** So is whatever a path leads to. */
  lemma {:induction false} FoldKnown(g: Geometry, disk: seq<Sector>, own: Ownership, at: Info, names: seq<seq<Byte>>)
    requires Sound(g, disk, own) && Known(g, disk, own, at)
    ensures var r := Fold(FatFind(g, disk, own), at, names); r.Hit? ==> Known(g, disk, own, r.info)
    decreases |names|
  {
    hide Sound, Known, LookUp;
    if names != [] && HasFlag(at.flags, VFS_DIR) {
      match FatFind(g, disk, own)(at.inode, names[0])
      case Missing =>
      case Hit(next) =>
        LookUpKnown(g, disk, own, at.inode, names[0]);
        FoldKnown(g, disk, own, next, names[1..]);
    }
  }
}
