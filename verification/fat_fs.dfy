/** The filesystem's operations over a well-formed volume. */
module FatFs {
  import opened Collections
  import opened Bytes
  import opened CString
  import opened FatLayout
  import opened FatTable
  import opened FatChain
  import opened FatData
  import opened FatEntryCodec
  import opened FatNames
  import opened FatWrite
  import opened FatDir
  import opened FatVolume
  import opened FatCreate
  import opened FatCreateKeeps
  import opened VfsNode

  // ---- Changes outside everything that is live ----

  /** Every sector is the same that is not in cluster c, and so is every link but that of c. */
  ghost predicate OnlyCluster(g: Geometry, d0: seq<Sector>, d1: seq<Sector>, c: int)
    requires g.Fits(d0)
  {
    && |d1| == |d0| && g.Fits(d1) && g.IsCluster(c)
    && Fat(g, d1) == Fat(g, d0)[c := Fat(g, d1)[c]]
    && SameElsewhere(g, d0, d1, [c])
  }

  /** Only the bytes of a cluster differ that is free before and after. */
  ghost predicate OnlyFreeCluster(g: Geometry, d0: seq<Sector>, d1: seq<Sector>, c: int)
    requires g.Fits(d0)
  {
    && OnlyCluster(g, d0, d1, c) && c in FreeSet(Fat(g, d0)) && Fat(g, d1) == Fat(g, d0)
    && (CopiesAgree(g, d0) ==> CopiesAgree(g, d1))
  }

  lemma UnownedSector(g: Geometry, d0: seq<Sector>, d1: seq<Sector>, own: Ownership, c: int, lba: int)
    requires Sound(g, d0, own) && c !in Owned(own) && SameElsewhere(g, d0, d1, [c])
    requires DirLba(g, d0, own, lba) && 0 <= lba < |d0|
    ensures d1[lba] == d0[lba]
  {
    UnownedOffDirs(g, d0, own, [c], lba);
    FatRegion(g, d0);
    if !(g.RootLba() <= lba < g.DataLba()) {
      var s :| DirChainAt(g, d0, own, s, lba);
      var i :| 0 <= i < |own[s]| && g.InCluster(lba, own[s][i]);
      ClusterInData(g, lba, own[s][i]);
    }
  }

  lemma UnownedDirs(g: Geometry, d0: seq<Sector>, d1: seq<Sector>, own: Ownership, c: int, inode: int, ch: seq<int>)
    requires Sound(g, d0, own) && c !in Owned(own) && SameElsewhere(g, d0, d1, [c])
    requires DirOf(g, d0, own, inode, ch) && g.Fits(d1) && IsDir(g, d1, inode, ch)
    ensures IsDir(g, d0, inode, ch) && Entries(g, d1, inode, ch) == Entries(g, d0, inode, ch)
  {
    DirOfIsDir(g, d0, own, inode, ch);
    forall j | 0 <= j < |Entries(g, d0, inode, ch)|
      ensures Entries(g, d1, inode, ch)[j] == Entries(g, d0, inode, ch)[j]
    {
      SlotAtEntry(g, d0, own, inode, ch, j);
      UnownedSector(g, d0, d1, own, c, SlotAt(g, inode, ch, j).lba);
    }
  }

  lemma UnownedEntry(g: Geometry, d0: seq<Sector>, d1: seq<Sector>, own: Ownership, c: int, s: Slot)
    requires Sound(g, d0, own) && c !in Owned(own) && OnlyCluster(g, d0, d1, c)
    requires Placed(g, d0, s) && DirLba(g, d0, own, s.lba)
    ensures EntryOf(g, d1, s) == EntryOf(g, d0, s)
  {
    UnownedSector(g, d0, d1, own, c, s.lba);
  }

  lemma UnownedDirLba(g: Geometry, d0: seq<Sector>, d1: seq<Sector>, own: Ownership, c: int, lba: int)
    requires Sound(g, d0, own) && c !in Owned(own) && OnlyCluster(g, d0, d1, c)
    ensures DirLba(g, d1, own, lba) <==> DirLba(g, d0, own, lba)
  {
    forall s ensures DirChainAt(g, d1, own, s, lba) <==> DirChainAt(g, d0, own, s, lba) {
      if s in own {
        OwnedIsOwner(g, d0, own, s);
        UnownedEntry(g, d0, d1, own, c, s);
      }
    }
    if DirLba(g, d1, own, lba) && !(g.RootLba() <= lba < g.DataLba()) {
      var s :| DirChainAt(g, d1, own, s, lba);
      assert DirChainAt(g, d0, own, s, lba);
    }
    if DirLba(g, d0, own, lba) && !(g.RootLba() <= lba < g.DataLba()) {
      var s :| DirChainAt(g, d0, own, s, lba);
      assert DirChainAt(g, d1, own, s, lba);
    }
  }

  /** Whatever happens to a cluster that nobody owns, the volume stays sound. */
  lemma UnownedKeeps(g: Geometry, d0: seq<Sector>, d1: seq<Sector>, own: Ownership, c: int)
    requires Sound(g, d0, own) && c !in Owned(own) && OnlyCluster(g, d0, d1, c)
    ensures Sound(g, d1, own)
  {
    forall s | s in own ensures SlotOk(g, d1, own, s) {
      OwnedIsOwner(g, d0, own, s);
      assert SlotOk(g, d0, own, s);
      UnownedApart(g, d0, own, [c], Fat(g, d1), s);
      UnownedEntry(g, d0, d1, own, c, s);
      UnownedDirLba(g, d0, d1, own, c, s.lba);
    }
    forall s | Placed(g, d1, s) && DirLba(g, d1, own, s.lba) && Owner(EntryOf(g, d1, s)) ensures s in own {
      UnownedDirLba(g, d0, d1, own, c, s.lba);
      UnownedEntry(g, d0, d1, own, c, s);
    }
    UnownedTidy(g, d0, d1, own, c);
    forall s | Placed(g, d1, s) && DirLba(g, d1, own, s.lba) && Dotted(EntryOf(g, d1, s))
      ensures EntryOf(g, d1, s).IsDirectory() && LeadsToDir(g, d1, own, EntryOf(g, d1, s).firstCluster)
    {
      UnownedDirLba(g, d0, d1, own, c, s.lba);
      UnownedEntry(g, d0, d1, own, c, s);
      UnownedLeads(g, d0, d1, own, c, EntryOf(g, d0, s).firstCluster);
    }
  }

  lemma UnownedLeads(g: Geometry, d0: seq<Sector>, d1: seq<Sector>, own: Ownership, c: int, inode: int)
    requires Sound(g, d0, own) && c !in Owned(own) && OnlyCluster(g, d0, d1, c) && LeadsToDir(g, d0, own, inode)
    ensures LeadsToDir(g, d1, own, inode)
  {
    var ch :| DirOf(g, d0, own, inode, ch);
    if inode != 0 {
      var s :| DirNamed(g, d0, own, s, inode, ch);
      OwnedIsOwner(g, d0, own, s);
      UnownedEntry(g, d0, d1, own, c, s);
      assert DirNamed(g, d1, own, s, inode, ch);
    }
    assert DirOf(g, d1, own, inode, ch);
  }

  lemma UnownedTidy(g: Geometry, d0: seq<Sector>, d1: seq<Sector>, own: Ownership, c: int)
    requires Sound(g, d0, own) && c !in Owned(own) && OnlyCluster(g, d0, d1, c)
    ensures Tidy(g, d1, own)
  {
    UnownedDirs(g, d0, d1, own, c, 0, []);
    forall s | s in own && Placed(g, d1, s) && EntryOf(g, d1, s).IsDirectory()
      ensures TidyDir(g, d1, EntryOf(g, d1, s).firstCluster, own[s])
    {
      UnownedTidyAt(g, d0, d1, own, c, s);
    }
  }

  lemma UnownedTidyAt(g: Geometry, d0: seq<Sector>, d1: seq<Sector>, own: Ownership, c: int, s: Slot)
    requires Sound(g, d0, own) && c !in Owned(own) && OnlyCluster(g, d0, d1, c) && g.Fits(d1)
    requires s in own && Placed(g, d1, s) && EntryOf(g, d1, s).IsDirectory()
    ensures TidyDir(g, d1, EntryOf(g, d1, s).firstCluster, own[s])
  {
    OwnedIsOwner(g, d0, own, s);
    UnownedEntry(g, d0, d1, own, c, s);
    var inode := EntryOf(g, d0, s).firstCluster;
    OwnedDir(g, d0, own, s);
    DirOfIsDir(g, d0, own, inode, own[s]);
    UnownedApart(g, d0, own, [c], Fat(g, d1), s);
    UnownedDirs(g, d0, d1, own, c, inode, own[s]);
  }

  /** And the clusters of every file still reach its size. */
  lemma UnownedCovers(g: Geometry, d0: seq<Sector>, d1: seq<Sector>, own: Ownership, c: int)
    requires WellFormed(g, d0, own) && c !in Owned(own) && OnlyCluster(g, d0, d1, c)
    ensures WellFormed(g, d1, own)
  {
    UnownedKeeps(g, d0, d1, own, c);
    forall t | LiveFile(g, d1, own, t) ensures IsFile(g, d1, own, t) {
      OwnedIsOwner(g, d0, own, t);
      UnownedEntry(g, d0, d1, own, c, t);
      assert LiveFile(g, d0, own, t);
    }
  }

  // ---- Create ----

  predicate CanCreate(es: seq<DirEntry>, name: seq<Byte>, isDir: bool, diskFull: bool)
    requires Shapes(es)
  {
    Accepted(name) && FirstFree(es) < |es| && !(isDir && diskFull)
  }

  /** The entry `name` gets in the directory. */
  ghost predicate Creates(g: Geometry, d0: seq<Sector>, d1: seq<Sector>, own: Ownership, inode: int, ch: seq<int>,
                          name: seq<Byte>, isDir: bool, s: Slot, taken: seq<int>)
  {
    && Accepted(name) && (isDir <==> taken != [])
    && Made(g, d0, d1, own, inode, ch, s, EntryFor(name, taken), taken)
    && g.Fits(d1) && Emptied(g, d1, inode, taken)
  }

  ghost function OwnedAfter(own: Ownership, name: seq<Byte>, s: Slot, taken: seq<int>): Ownership
    requires Accepted(name)
  {
    Added(own, s, EntryFor(name, taken), taken)
  }

  lemma FieldStart(name: seq<Byte>)
    requires Accepted(name) && Plain(name)
    ensures var f := Field(BasePart(name), 8); f[0] == Upper(name[0]) && f[0] != 0 && f[0] != DOT
    ensures Field(BasePart(name), 8)[0] == DELETED <==> name[0] == DELETED
  {
    assert BasePart(name)[0] == name[0] != DOT;
  }

  /** The entry that a create writes for `name`. */
  function EntryFor(name: seq<Byte>, taken: seq<int>): (e: DirEntry)
    requires Accepted(name)
    ensures e.Shaped()
  {
    if taken == [] then MadeEntry(name, 0, 0, ATTR_ARCHIVE) else MadeEntry(name, taken[0], 0, ATTR_DIRECTORY)
  }

  lemma EntryForIsNew(name: seq<Byte>, taken: seq<int>)
    requires Accepted(name) && Plain(name) && |taken| <= 1 && (taken != [] ==> 2 <= taken[0] < 0x1_0000)
    ensures NewEntry(EntryFor(name, taken), taken)
  {
    FieldStart(name);
  }

  lemma FilledSlot(g: Geometry, d0: seq<Sector>, d: seq<Sector>, d1: seq<Sector>, own: Ownership,
                   inode: int, ch: seq<int>, e: DirEntry)
    returns (s: Slot)
    requires Sound(g, d0, own) && DirOf(g, d0, own, inode, ch) && IsDir(g, d0, inode, ch)
    requires g.Fits(d) && |d| == |d0| && IsDir(g, d, inode, ch)
    requires FirstFree(Entries(g, d0, inode, ch)) < |Entries(g, d0, inode, ch)|
    requires e.Shaped() && 0 <= e.attributes < 0x100
    requires 0 <= e.firstCluster < 0x1_0000 && 0 <= e.fileSize < 0x1_0000_0000
    requires EntryWritten(g, d, d1, inode, ch, FirstFree(Entries(g, d0, inode, ch)), e)
    ensures FreeSlotOf(g, d0, own, inode, ch, s)
    ensures d1 == d[s.lba := PutEntry(d[s.lba], s.index, e)]
  {
    var k := FirstFree(Entries(g, d0, inode, ch));
    SlotAtEntry(g, d0, own, inode, ch, k);
    s := SlotAt(g, inode, ch, k);
  }

  /** An entry put into the first free slot, and nothing else, makes a file. */
  lemma EntryPutMade(g: Geometry, d0: seq<Sector>, d1: seq<Sector>, own: Ownership, inode: int, ch: seq<int>,
                     s: Slot, e: DirEntry)
    requires g.Fits(d0) && Sound(g, d0, own) && DirOf(g, d0, own, inode, ch) && IsDir(g, d0, inode, ch)
    requires NewEntry(e, []) && FreeSlotOf(g, d0, own, inode, ch, s)
    requires d1 == d0[s.lba := PutEntry(d0[s.lba], s.index, e)]
    ensures g.Fits(d1) && Made(g, d0, d1, own, inode, ch, s, e, [])
  {
    hide Sound, PutEntry, EntryAt, FirstFree, DirLba, Fat;
    FatRegion(g, d0);
    SameFatSectors(g, d0, d1);
  }

  /** Writing only the entry of an empty file. */
  lemma FileMade(g: Geometry, d0: seq<Sector>, d1: seq<Sector>, own: Ownership, inode: int, ch: seq<int>,
                 name: seq<Byte>)
    returns (s: Slot)
    requires Sound(g, d0, own) && DirOf(g, d0, own, inode, ch) && IsDir(g, d0, inode, ch)
    requires Plain(name) && Accepted(name) && FirstFree(Entries(g, d0, inode, ch)) < |Entries(g, d0, inode, ch)|
    requires EntryWritten(g, d0, d1, inode, ch, FirstFree(Entries(g, d0, inode, ch)), EntryFor(name, []))
    ensures Creates(g, d0, d1, own, inode, ch, name, false, s, [])
  {
    hide Made, PutEntry, EntryAt, Field;
    s := FilledSlot(g, d0, d0, d1, own, inode, ch, EntryFor(name, []));
    EntryForIsNew(name, []);
    EntryPutMade(g, d0, d1, own, inode, ch, s, EntryFor(name, []));
  }

  method CreateFile(v: Volume, inode: int, name: seq<Byte>, ghost ch: seq<int>, ghost own: Ownership)
    returns (ok: bool, ghost s: Slot)
    requires Sound(v.g, v.disk, own) && DirOf(v.g, v.disk, own, inode, ch) && IsDir(v.g, v.disk, inode, ch)
    requires Plain(name)
    modifies v
    ensures ok <==> CanCreate(Entries(v.g, old(v.disk), inode, ch), name, false, false)
    ensures ok ==> Creates(v.g, old(v.disk), v.disk, own, inode, ch, name, false, s, [])
    ensures !ok ==> v.disk == old(v.disk)
  {
    ghost var d0 := v.disk;
    s := Slot(0, 0);
    var r := WriteDirEntry(v, inode, name, 0, 0, ATTR_ARCHIVE, ch);
    ok := r == 0;
    if ok { s := FileMade(v.g, d0, v.disk, own, inode, ch, name); }
  }

  /** The state between allocating a directory's cluster and writing its entry. */
  ghost predicate ClusterReady(g: Geometry, d0: seq<Sector>, d: seq<Sector>, inode: int, c: int)
    requires g.Fits(d0)
  {
    && |d| == |d0| && g.Fits(d) && c in FreeSet(Fat(g, d0)) && Fat(g, d) == Fat(g, d0)[c := 0xFFFF]
    && (CopiesAgree(g, d0) ==> CopiesAgree(g, d))
    && SameElsewhere(g, d0, d, [c])
    && 0 <= inode < 0x1_0000 && EmptyDir(g, d, c, inode)
  }

  lemma ReadyIsDir(g: Geometry, d0: seq<Sector>, d: seq<Sector>, own: Ownership, inode: int, ch: seq<int>, c: int)
    requires Sound(g, d0, own) && DirOf(g, d0, own, inode, ch) && IsDir(g, d0, inode, ch)
    requires |d| == |d0| && g.Fits(d) && c in FreeSet(Fat(g, d0)) && Fat(g, d) == Fat(g, d0)[c := 0xFFFF]
    requires SameElsewhere(g, d0, d, [c])
    ensures IsDir(g, d, inode, ch) && Entries(g, d, inode, ch) == Entries(g, d0, inode, ch)
  {
    FreeNotOwned(g, d0, own);
    if inode != 0 {
      var s :| DirNamed(g, d0, own, s, inode, ch);
      UnownedApart(g, d0, own, [c], Fat(g, d), s);
    }
    UnownedDirs(g, d0, d, own, c, inode, ch);
  }

  method PrepareDir(v: Volume, inode: int) returns (c: int)
    requires v.Ready() && 0 <= inode < 0x1_0000
    modifies v
    ensures c == 0 <==> FreeSet(Fat(v.g, old(v.disk))) == {}
    ensures if c == 0 then v.disk == old(v.disk) else ClusterReady(v.g, old(v.disk), v.disk, inode, c)
  {
    ghost var d0 := v.disk;
    c := FatAllocCluster(v);
    if c == 0 { return; }
    ghost var d := v.disk;
    InitDirCluster(v, c, inode);
    PatchKeepsFat(v.g, d, v.disk, c);
    forall lba | 0 <= lba < |d0| && !(v.g.FatLba() <= lba < v.g.RootLba()) && !OnChain(v.g, lba, [c])
      ensures v.disk[lba] == d0[lba]
    {
      assert !v.g.InCluster(lba, [c][0]);
    }
  }

  /** Giving the prepared cluster back restores every link. */
  method AbandonDir(v: Volume, c: int, ghost d0: seq<Sector>, ghost inode: int)
    requires v.g.Fits(d0) && ClusterReady(v.g, d0, v.disk, inode, c)
    modifies v
    ensures v.g.Fits(v.disk) && OnlyFreeCluster(v.g, d0, v.disk, c)
  {
    ghost var fat := Fat(v.g, v.disk);
    assert LinkAt(fat, [c], 0);
    assert Chain(fat, c, [c]);
    forall d ensures Reachable(fat, c, d) <==> d in [c] { ReachableIsChain(fat, c, [c], d); }
    FatFreeChain(v, c);
    assert Fat(v.g, v.disk) == Fat(v.g, d0);
  }

  lemma DirMade(g: Geometry, d0: seq<Sector>, d: seq<Sector>, d1: seq<Sector>, own: Ownership,
                inode: int, ch: seq<int>, name: seq<Byte>, c: int)
    returns (s: Slot)
    requires Sound(g, d0, own) && DirOf(g, d0, own, inode, ch) && IsDir(g, d0, inode, ch)
    requires ClusterReady(g, d0, d, inode, c) && IsDir(g, d, inode, ch) && 0 <= c < 0x1_0000
    requires Entries(g, d, inode, ch) == Entries(g, d0, inode, ch)
    requires Plain(name) && Accepted(name) && FirstFree(Entries(g, d0, inode, ch)) < |Entries(g, d0, inode, ch)|
    requires EntryWritten(g, d, d1, inode, ch, FirstFree(Entries(g, d0, inode, ch)), EntryFor(name, [c]))
    ensures Creates(g, d0, d1, own, inode, ch, name, true, s, [c])
  {
    s := FilledSlot(g, d0, d, d1, own, inode, ch, EntryFor(name, [c]));
    EntryForIsNew(name, [c]);
    DirMadeFrame(g, d0, d, d1, own, inode, c, s, EntryFor(name, [c]));
  }

  lemma DirMadeFrame(g: Geometry, d0: seq<Sector>, d: seq<Sector>, d1: seq<Sector>, own: Ownership,
                     inode: int, c: int, s: Slot, e: DirEntry)
    requires Sound(g, d0, own) && ClusterReady(g, d0, d, inode, c)
    requires Placed(g, d0, s) && DirLba(g, d0, own, s.lba) && e.Shaped() && 0 <= e.attributes < 0x100
    requires 0 <= e.firstCluster < 0x1_0000 && 0 <= e.fileSize < 0x1_0000_0000
    requires d1 == d[s.lba := PutEntry(d[s.lba], s.index, e)]
    ensures g.Fits(d1) && |d1| == |d0| && Fat(g, d1) == Fat(g, d0)[c := 0xFFFF] && EmptyDir(g, d1, c, inode)
    ensures d1[s.lba] == PutEntry(d0[s.lba], s.index, e)
    ensures forall lba | 0 <= lba < |d0| && !(g.FatLba() <= lba < g.RootLba()) && lba != s.lba
                         && !OnChain(g, lba, [c]) :: d1[lba] == d0[lba]
    ensures CopiesAgree(g, d0) ==> CopiesAgree(g, d1)
  {
    FatRegion(g, d0);
    SameFatSectors(g, d, d1);
    FreeNotOwned(g, d0, own);
    UnownedOffDirs(g, d0, own, [c], s.lba);
    EntryMissesCluster(g, d, d1, c, inode, s.lba);
    UnownedSector(g, d0, d, own, c, s.lba);
  }

  lemma EntryMissesCluster(g: Geometry, d: seq<Sector>, d1: seq<Sector>, c: int, parent: int, lba: int)
    requires g.Fits(d) && |d1| == |d| && g.IsCluster(c) && 0 <= parent < 0x1_0000 && EmptyDir(g, d, c, parent)
    requires !OnChain(g, lba, [c]) && forall l :: 0 <= l < |d| && l != lba ==> d1[l] == d[l]
    ensures g.Fits(d1) && EmptyDir(g, d1, c, parent)
  {
    ClusterOnDisk(g, d, c);
    assert !g.InCluster(lba, [c][0]);
  }

  method CreateDir(v: Volume, inode: int, name: seq<Byte>, ghost ch: seq<int>, ghost own: Ownership)
    returns (ok: bool, ghost s: Slot, c: int)
    requires Sound(v.g, v.disk, own) && DirOf(v.g, v.disk, own, inode, ch) && IsDir(v.g, v.disk, inode, ch)
    requires Plain(name)
    modifies v
    ensures ok <==> CanCreate(Entries(v.g, old(v.disk), inode, ch), name, true, FreeSet(Fat(v.g, old(v.disk))) == {})
    ensures ok ==> Creates(v.g, old(v.disk), v.disk, own, inode, ch, name, true, s, [c])
    ensures !ok ==> v.disk == old(v.disk) || OnlyFreeCluster(v.g, old(v.disk), v.disk, c)
  {
    ghost var d0 := v.disk;
    s := Slot(0, 0);
    c := PrepareDir(v, inode);
    if c == 0 { return false, s, c; }
    ghost var d := v.disk;
    ReadyIsDir(v.g, d0, d, own, inode, ch, c);
    assert c < 0x1_0000;
    var r := WriteDirEntry(v, inode, name, c, 0, ATTR_DIRECTORY, ch);
    ok := r == 0;
    if ok {
      s := DirMade(v.g, d0, d, v.disk, own, inode, ch, name, c);
    } else {
      AbandonDir(v, c, d0, inode);
    }
  }

  /** What a failed create may still have changed: the contents of one free cluster. */
  ghost predicate Untouched(g: Geometry, d0: seq<Sector>, d1: seq<Sector>)
    requires g.Fits(d0)
  {
    d1 == d0 || exists c :: OnlyFreeCluster(g, d0, d1, c)
  }

  /** fat16_vfs_create. It succeeds exactly when the name fits 8.3, a slot is free and, for
      a directory, a cluster is free; then it has filled the first free slot. Otherwise no
      link, no entry and no live byte differs. `memory` says whether kmalloc finds room. */
  method VfsCreate(v: Volume, inode: int, name: seq<Byte>, isDir: bool, memory: bool,
                   ghost ch: seq<int>, ghost own: Ownership)
    returns (node: Node?, ghost made: bool, ghost s: Slot, ghost taken: seq<int>)
    requires Sound(v.g, v.disk, own) && DirOf(v.g, v.disk, own, inode, ch) && IsDir(v.g, v.disk, inode, ch)
    requires Plain(name)
    modifies v
    ensures made <==> CanCreate(Entries(v.g, old(v.disk), inode, ch), name, isDir, FreeSet(Fat(v.g, old(v.disk))) == {})
    ensures made ==> Creates(v.g, old(v.disk), v.disk, own, inode, ch, name, isDir, s, taken)
    ensures made ==> Sound(v.g, v.disk, OwnedAfter(own, name, s, taken)) && IsDir(v.g, v.disk, inode, ch)
    ensures made && WellFormed(v.g, old(v.disk), own) ==> WellFormed(v.g, v.disk, OwnedAfter(own, name, s, taken))
    ensures made ==>
      if memory && Found(Entries(v.g, v.disk, inode, ch), name)
      then node != null && fresh(node)
           && NodeFor(v.g, v.disk, inode, ch, Scan(Entries(v.g, v.disk, inode, ch), name), node)
      else node == null
    ensures !made ==> node == null && Untouched(v.g, old(v.disk), v.disk) && Sound(v.g, v.disk, own)
    ensures !made && WellFormed(v.g, old(v.disk), own) ==> WellFormed(v.g, v.disk, own)
  {
    node, s, taken := null, Slot(0, 0), [];
    ghost var d0 := v.disk;
    var ok;
    if isDir {
      var c;
      ok, s, c := CreateDir(v, inode, name, ch, own);
      taken := [c];
      if !ok && v.disk != d0 { FailedKeeps(v.g, d0, v.disk, own, c); }
    } else {
      ok, s := CreateFile(v, inode, name, ch, own);
    }
    made := ok;
    if !ok { return; }
    CreatesKeeps(v.g, d0, v.disk, own, inode, ch, name, isDir, s, taken);
    if WellFormed(v.g, d0, own) { CreateCovers(v.g, d0, v.disk, own, inode, ch, name, isDir, s, taken); }
    node := VfsFindDir(v, inode, name, memory, ch);
  }

  lemma FailedKeeps(g: Geometry, d0: seq<Sector>, d1: seq<Sector>, own: Ownership, c: int)
    requires Sound(g, d0, own) && OnlyFreeCluster(g, d0, d1, c)
    ensures Sound(g, d1, own) && (WellFormed(g, d0, own) ==> WellFormed(g, d1, own))
  {
    FreeNotOwned(g, d0, own);
    UnownedKeeps(g, d0, d1, own, c);
    if WellFormed(g, d0, own) { UnownedCovers(g, d0, d1, own, c); }
  }

  lemma CreatesKeeps(g: Geometry, d0: seq<Sector>, d1: seq<Sector>, own: Ownership, inode: int, ch: seq<int>,
                     name: seq<Byte>, isDir: bool, s: Slot, taken: seq<int>)
    requires Creates(g, d0, d1, own, inode, ch, name, isDir, s, taken)
    ensures Sound(g, d1, OwnedAfter(own, name, s, taken)) && IsDir(g, d1, inode, ch)
  {
    var e := EntryFor(name, taken);
    MadeKeeps(g, d0, d1, own, inode, ch, s, e, taken);
    MadeIsDir(g, d0, d1, own, inode, ch, s, e, taken, inode, ch);
  }

  /** Creating covers every file that was covered, and the new one is empty. */
  lemma CreateCovers(g: Geometry, d0: seq<Sector>, d1: seq<Sector>, own: Ownership, inode: int, ch: seq<int>,
                     name: seq<Byte>, isDir: bool, s: Slot, taken: seq<int>)
    requires Creates(g, d0, d1, own, inode, ch, name, isDir, s, taken) && WellFormed(g, d0, own)
    ensures WellFormed(g, d1, OwnedAfter(own, name, s, taken))
  {
    hide Made, Sound, EntryFor, Emptied, Geometry.Fits;
    var own', e := OwnedAfter(own, name, s, taken), EntryFor(name, taken);
    CreatesKeeps(g, d0, d1, own, inode, ch, name, isDir, s, taken);
    forall t | LiveFile(g, d1, own', t) ensures IsFile(g, d1, own', t) {
      if t in own && t != s {
        OwnedIsOwner(g, d0, own, t);
        MadeEntries(g, d0, d1, own, inode, ch, s, e, taken, t);
        assert LiveFile(g, d0, own, t);
      } else {
        NewEntryEmpty(g, d0, d1, own, inode, ch, s, e, taken);
      }
    }
  }

  lemma NewEntryEmpty(g: Geometry, d0: seq<Sector>, d1: seq<Sector>, own: Ownership, inode: int, ch: seq<int>,
                      s: Slot, e: DirEntry, taken: seq<int>)
    requires Made(g, d0, d1, own, inode, ch, s, e, taken)
    ensures Placed(g, d1, s) && EntryOf(g, d1, s).fileSize == 0
  {
    MadeEntries(g, d0, d1, own, inode, ch, s, e, taken, s);
  }

  /** Creating accounts for every cluster, unless a directory's name begins with byte 0xE5. */
  lemma CreateAccounts(g: Geometry, d0: seq<Sector>, d1: seq<Sector>, own: Ownership, inode: int, ch: seq<int>,
                       name: seq<Byte>, isDir: bool, s: Slot, taken: seq<int>)
    requires Creates(g, d0, d1, own, inode, ch, name, isDir, s, taken) && Plain(name)
    ensures Elements(taken) <= Accounted(g, d0, own)
    ensures Accounted(g, d1, OwnedAfter(own, name, s, taken)) ==
      Accounted(g, d0, own) - (if isDir && name[0] == DELETED then Elements(taken) else {})
    ensures Accounted(g, d1, OwnedAfter(own, name, s, taken)) == Accounted(g, d0, own) <==>
      !isDir || name[0] != DELETED
  {
    hide Accounted, Made;
    var e := EntryFor(name, taken);
    FieldStart(name);
    MadeAccounts(g, d0, d1, own, inode, ch, s, e, taken);
    if isDir { assert taken[0] in Elements(taken); } else { assert Elements(taken) == {}; }
  }

  /** A created entry appears in its directory's listing at one place, the others keep
      their order; a name that begins with byte 0xE5 appears nowhere. */
  lemma CreateLists(g: Geometry, d0: seq<Sector>, d1: seq<Sector>, own: Ownership, inode: int, ch: seq<int>,
                    name: seq<Byte>, isDir: bool, s: Slot, taken: seq<int>)
    requires Creates(g, d0, d1, own, inode, ch, name, isDir, s, taken) && Plain(name)
    ensures IsDir(g, d1, inode, ch)
    ensures var before, after := Listed(Entries(g, d0, inode, ch)), Listed(Entries(g, d1, inode, ch));
      var e := EntryFor(name, taken);
      if name[0] == DELETED then after == before
      else exists p :: 0 <= p <= |before| && after == before[..p] + [e] + before[p..]
  {
    var e := EntryFor(name, taken);
    var es := Entries(g, d0, inode, ch);
    FieldStart(name);
    MadeDir(g, d0, d1, own, inode, ch, s, e, taken, inode, ch);
    NewOwner(e, taken);
    FillLists(es, e);
  }

  lemma FillLists(es: seq<DirEntry>, e: DirEntry)
    requires Shapes(es) && TidyEntries(es) && e.Shaped() && !e.IsEnd() && FirstFree(es) < |es|
    ensures Shapes(es[FirstFree(es) := e])
    ensures var before, after := Listed(es), Listed(es[FirstFree(es) := e]);
      if !Shown(e) then after == before
      else exists p :: 0 <= p <= |before| && after == before[..p] + [e] + before[p..]
  {
    FillInserts(es, e);
    var p := |Listed(es[..FirstFree(es)])|;
    assert Listed(es)[..p] + [] + Listed(es)[p..] == Listed(es);
  }

  // ---- Looking a created name up ----

  lemma SameFields(a: DirEntry, b: DirEntry)
    requires a.Shaped() && b.Shaped() && a.name == b.name && a.ext == b.ext
    ensures Text83(a) == Text83(b)
  {
  }

  lemma MadeMatches(name: seq<Byte>, e: DirEntry)
    requires Accepted(name) && Plain(name) && e.name == Field(BasePart(name), 8) && e.ext == Field(ExtPart(name), 3)
    ensures e.Shaped() && (Matches(e, name) <==> Faithful(name))
  {
    hide Text83, Faithful, Accepted;
    assert Text83(e) == Text83(FatNames.FieldsOf(name)) by { SameFields(e, FatNames.FieldsOf(name)); }
    NameRoundTrip(name);
    PlainText(name);
    TextPlain(e);
    PlainText(Text83(e));
  }

  /** Right after a create the name is found if it is faithful and does not begin with byte
      0xE5; when it was not there before, it is found at the slot just filled, and that is
      the only way it can be found. */
  lemma CreateFinds(es: seq<DirEntry>, name: seq<Byte>, e: DirEntry)
    requires Shapes(es) && Accepted(name) && Plain(name) && FirstFree(es) < |es| && TidyEntries(es)
    requires e.name == Field(BasePart(name), 8) && e.ext == Field(ExtPart(name), 3)
    requires e.attributes == ATTR_ARCHIVE || e.attributes == ATTR_DIRECTORY
    ensures Shapes(es[FirstFree(es) := e])
    ensures !Found(es, name) ==>
      (Found(es[FirstFree(es) := e], name) <==> Faithful(name) && name[0] != DELETED)
    ensures !Found(es, name) && Faithful(name) && name[0] != DELETED ==>
      Scan(es[FirstFree(es) := e], name) == FirstFree(es)
    ensures Found(es, name) ==> Found(es[FirstFree(es) := e], name)
  {
    hide Stops, Faithful, FirstFree, TidyEntries, Field, Accepted;
    MadeStops(name, e);
    ScanFilled(es, name, e);
  }

  /** Lookup stops at the entry made for a name exactly when the name reads back as itself. */
  lemma MadeStops(name: seq<Byte>, e: DirEntry)
    requires Accepted(name) && Plain(name) && e.name == Field(BasePart(name), 8) && e.ext == Field(ExtPart(name), 3)
    requires e.attributes == ATTR_ARCHIVE || e.attributes == ATTR_DIRECTORY
    ensures |name| > 0 && e.Shaped() && !e.IsEnd() && (Stops(e, name) <==> Faithful(name) && name[0] != DELETED)
  {
    hide Faithful, Matches, Text83;
    MadeMatches(name, e);
    FieldStart(name);
  }

  lemma ScanFilled(es: seq<DirEntry>, name: seq<Byte>, e: DirEntry)
    requires Shapes(es) && FirstFree(es) < |es| && TidyEntries(es) && e.Shaped() && !e.IsEnd()
    ensures var k := FirstFree(es); var es' := es[k := e];
      && Shapes(es')
      && (Found(es, name) && Scan(es, name) < k ==> Scan(es', name) == Scan(es, name))
      && (!(Found(es, name) && Scan(es, name) < k) && Stops(e, name) ==> Scan(es', name) == k)
      && (!(Found(es, name) && Scan(es, name) < k) && !Stops(e, name) ==> (Found(es', name) <==> Found(es, name)))
  {
    var k := FirstFree(es);
    var es' := es[k := e];
    var i, i' := Scan(es, name), Scan(es', name);
    assert forall j :: 0 <= j < k ==> !es[j].IsEnd();
    if i < k {
      ScanIs(es', name, i);
    } else if Stops(e, name) {
      ScanIs(es', name, k);
    } else if i < |es| && !es[i].IsEnd() {
      assert i != k;
      ScanIs(es', name, i);
    }
  }

  lemma ScanIs(es: seq<DirEntry>, name: seq<Byte>, i: nat)
    requires Shapes(es) && i < |es| && Stops(es[i], name) && forall j :: 0 <= j < i ==> !Stops(es[j], name)
    ensures Scan(es, name) == i
  {
  }

  const DOTDOT: seq<Byte> := [DOT, DOT]

  /** ".." looked up in a new directory is its second entry, which carries the parent's inode. */
  lemma NewDirParent(g: Geometry, d0: seq<Sector>, d1: seq<Sector>, own: Ownership, inode: int, ch: seq<int>,
                     name: seq<Byte>, s: Slot, taken: seq<int>)
    requires Creates(g, d0, d1, own, inode, ch, name, true, s, taken)
    ensures taken == [taken[0]] && EntryFor(name, taken).firstCluster == taken[0] && IsDir(g, d1, taken[0], taken)
    ensures var es := Entries(g, d1, taken[0], taken);
      Found(es, DOTDOT) && Scan(es, DOTDOT) == 1 && es[1].IsDirectory() && es[1].firstCluster == inode
  {
    hide Sound, FreeSlotOf, EmptyDir, Chain, Found, Scan;
    var e := EntryFor(name, taken);
    NewChain(g, d0, d1, own, inode, ch, s, e, taken);
    assert taken == [taken[0]];
    DotDotFound(g, d1, taken[0], inode);
  }

  lemma DotDotFound(g: Geometry, d1: seq<Sector>, c: int, parent: int)
    requires g.Fits(d1) && g.IsCluster(c) && 0 <= parent < 0x1_0000 && EmptyDir(g, d1, c, parent)
    requires c < 0x1_0000 && Chain(Fat(g, d1), c, [c])
    ensures IsDir(g, d1, c, [c])
    ensures var es := Entries(g, d1, c, [c]);
      Found(es, DOTDOT) && Scan(es, DOTDOT) == 1 && es[1].IsDirectory() && es[1].firstCluster == parent
  {
    NewDirTidy(g, d1, c, parent);
    DotTexts(c, parent);
    ScanSecond(Entries(g, d1, c, [c]), DOTDOT);
  }

  lemma ScanSecond(es: seq<DirEntry>, name: seq<Byte>)
    requires Shapes(es) && |es| >= 2 && !Stops(es[0], name) && Stops(es[1], name) && !es[1].IsEnd()
    ensures Found(es, name) && Scan(es, name) == 1
  {
    ScanIs(es, name, 1);
  }

  lemma DotTexts(c: int, parent: int)
    ensures !Stops(DotEntry(c), DOTDOT) && Stops(DotDotEntry(parent), DOTDOT)
    ensures !DotDotEntry(parent).IsEnd() && DotDotEntry(parent).IsDirectory()
  {
    hide Text83, UpperAll, Text, Plain;
    DotText(c, parent);
    PlainText([DOT]);
    PlainText(DOTDOT);
    assert |UpperAll([DOT])| != |UpperAll(DOTDOT)|;
  }

  lemma DotText(c: int, parent: int)
    ensures Text83(DotEntry(c)) == [DOT] && Text83(DotDotEntry(parent)) == DOTDOT
    ensures Plain([DOT]) && Plain(DOTDOT)
  {
    TrimIs(DOT_NAME, 1);
    TrimIs(DOTDOT_NAME, 2);
    assert DOT_NAME[..1] == [DOT] && DOTDOT_NAME[..2] == DOTDOT;
  }
}
