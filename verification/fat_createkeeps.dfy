/** Creating keeps the volume well formed and everything that was there before. */
module FatCreateKeeps {
  import opened Collections
  import opened FatLayout
  import opened FatTable
  import opened FatChain
  import opened FatData
  import opened FatEntryCodec
  import opened FatWrite
  import opened FatDir
  import opened FatVolume
  import opened FatWriteKeeps
  import opened FatCreate

  /** A fresh entry for an empty file, or for a directory whose only cluster is `taken`. */
  ghost predicate NewEntry(e: DirEntry, taken: seq<int>) {
    && e.Shaped() && e.name[0] != 0 && e.name[0] != DOT && e.fileSize == 0
    && (if taken == [] then e.attributes == ATTR_ARCHIVE && e.firstCluster == 0
        else |taken| == 1 && e.attributes == ATTR_DIRECTORY && e.firstCluster == taken[0] && 2 <= taken[0] < 0x1_0000)
  }

  /** The cluster of a new directory holds its two dot entries and nothing else. */
  ghost predicate Emptied(g: Geometry, d1: seq<Sector>, inode: int, taken: seq<int>)
    requires g.Fits(d1) && 0 <= inode < 0x1_0000
  {
    taken == [] || (g.IsCluster(taken[0]) && EmptyDir(g, d1, taken[0], inode))
  }

  /** The entry `e` has been put into the first free slot of a directory of a well-formed
      volume, its cluster, if any, was free and is now the end of a chain, and nothing
      else changed. */
  ghost predicate Made(g: Geometry, d0: seq<Sector>, d1: seq<Sector>, own: Ownership, inode: int, ch: seq<int>,
                       s: Slot, e: DirEntry, taken: seq<int>)
  {
    && Sound(g, d0, own) && DirOf(g, d0, own, inode, ch) && IsDir(g, d0, inode, ch)
    && NewEntry(e, taken) && |d1| == |d0|
    && FreeSlotOf(g, d0, own, inode, ch, s)
    && (if taken == [] then Fat(g, d1) == Fat(g, d0)
        else taken[0] in FreeSet(Fat(g, d0)) && Fat(g, d1) == Fat(g, d0)[taken[0] := 0xFFFF])
    && d1[s.lba] == PutEntry(d0[s.lba], s.index, e)
    && (forall lba | 0 <= lba < |d0| && !(g.FatLba() <= lba < g.RootLba()) && lba != s.lba
                     && !OnChain(g, lba, taken) :: d1[lba] == d0[lba])
    && (CopiesAgree(g, d0) ==> CopiesAgree(g, d1))
  }

  /** `s` is the first free slot of the directory. */
  ghost predicate FreeSlotOf(g: Geometry, disk: seq<Sector>, own: Ownership, inode: int, ch: seq<int>, s: Slot)
    requires g.Fits(disk) && IsDir(g, disk, inode, ch)
  {
    var k := FirstFree(Entries(g, disk, inode, ch));
    && k < |Entries(g, disk, inode, ch)|
    && (inode != 0 ==> k / 16 / g.sectorsPerCluster < |ch|)
    && s == SlotAt(g, inode, ch, k)
    && Placed(g, disk, s) && DirLba(g, disk, own, s.lba)
    && EntryOf(g, disk, s) == Entries(g, disk, inode, ch)[k] && EntryOf(g, disk, s).IsFreeSlot()
  }

  /** An entry that begins with the deletion mark is no entry, so it owns nothing. */
  ghost function Added(own: Ownership, s: Slot, e: DirEntry, taken: seq<int>): Ownership
    requires e.Shaped()
  {
    if Owner(e) then own[s := taken] else own
  }

  lemma NewOwner(e: DirEntry, taken: seq<int>)
    requires NewEntry(e, taken)
    ensures Owner(e) <==> e.name[0] != DELETED
    ensures e.IsDirectory() <==> taken != []
  {
  }

  lemma OwnedIsOwner(g: Geometry, disk: seq<Sector>, own: Ownership, s: Slot)
    requires Sound(g, disk, own) && s in own
    ensures Placed(g, disk, s) && DirLba(g, disk, own, s.lba) && Owner(EntryOf(g, disk, s))
    ensures Chain(Fat(g, disk), EntryOf(g, disk, s).firstCluster, own[s])
  {
    assert SlotOk(g, disk, own, s);
  }

  lemma UnownedOffDirs(g: Geometry, d0: seq<Sector>, own: Ownership, taken: seq<int>, lba: int)
    requires Sound(g, d0, own) && DirLba(g, d0, own, lba)
    requires forall c :: c in taken ==> c !in Owned(own)
    ensures !OnChain(g, lba, taken)
  {
    hide Sound, Owned, FreeSet, DirLba;
    forall i | 0 <= i < |taken| ensures !g.InCluster(lba, taken[i]) {
      if g.InCluster(lba, taken[i]) {
        var t := DirSectorOwner(g, d0, own, lba, taken[i]);
        OwnedBy(own, t, taken[i]);
      }
    }
  }

  lemma OwnedBy(own: Ownership, t: Slot, c: int)
    requires t in own && c in own[t]
    ensures c in Owned(own)
  {
  }

  lemma UnownedApart(g: Geometry, d0: seq<Sector>, own: Ownership, taken: seq<int>, fat': seq<int>, t: Slot)
    requires Sound(g, d0, own) && t in own && |fat'| == g.Entries()
    requires forall c :: c in taken ==> c !in Owned(own)
    requires forall c :: 0 <= c < |fat'| && c !in taken ==> fat'[c] == Fat(g, d0)[c]
    ensures forall c :: c in own[t] ==> g.IsCluster(c) && c !in taken
    ensures Placed(g, d0, t) && Chain(fat', EntryOf(g, d0, t).firstCluster, own[t])
  {
    OwnedIsOwner(g, d0, own, t);
    forall c | c in own[t] ensures g.IsCluster(c) && c !in taken && fat'[c] == Fat(g, d0)[c] {
      OwnedAllocated(g, d0, own, t, c);
      assert c in Owned(own);
    }
    ChainFrame(Fat(g, d0), fat', EntryOf(g, d0, t).firstCluster, own[t]);
  }

  /** The cluster taken for a new directory belonged to nobody, and no other link changes. */
  lemma TakenUnowned(g: Geometry, d0: seq<Sector>, d1: seq<Sector>, own: Ownership, inode: int, ch: seq<int>,
                     s: Slot, e: DirEntry, taken: seq<int>)
    requires Made(g, d0, d1, own, inode, ch, s, e, taken)
    ensures Sound(g, d0, own) && g.Fits(d0) && g.Fits(d1)
    ensures forall c :: c in taken ==> c in FreeSet(Fat(g, d0)) && c !in Owned(own)
    ensures forall c :: 0 <= c < g.Entries() && c !in taken ==> Fat(g, d1)[c] == Fat(g, d0)[c]
  {
    hide Sound, FreeSlotOf, Owned, FreeSet, EntryAt, PutEntry;
    MadeSound(g, d0, d1, own, inode, ch, s, e, taken);
    FreeNotOwned(g, d0, own);
  }

  lemma MadeSound(g: Geometry, d0: seq<Sector>, d1: seq<Sector>, own: Ownership, inode: int, ch: seq<int>,
                  s: Slot, e: DirEntry, taken: seq<int>)
    requires Made(g, d0, d1, own, inode, ch, s, e, taken)
    ensures Sound(g, d0, own) && g.Fits(d0) && g.Fits(d1)
  {
  }

  /** Every entry of every directory stays, but for the new one. */
  lemma MadeEntries(g: Geometry, d0: seq<Sector>, d1: seq<Sector>, own: Ownership, inode: int, ch: seq<int>,
                    s: Slot, e: DirEntry, taken: seq<int>, t: Slot)
    requires Made(g, d0, d1, own, inode, ch, s, e, taken)
    requires Placed(g, d0, t) && DirLba(g, d0, own, t.lba)
    ensures EntryOf(g, d1, t) == if t == s then e else EntryOf(g, d0, t)
  {
    hide Made, Sound, Owned, FreeSet, EntryAt, PutEntry, DirLba, OnChain, Fat, Geometry.Fits;
    TakenUnowned(g, d0, d1, own, inode, ch, s, e, taken);
    UnownedOffDirs(g, d0, own, taken, t.lba);
    MadeSectors(g, d0, d1, own, inode, ch, s, e, taken, t.lba);
    EntryPut(d0[s.lba], s.index, e);
  }

  /** The sectors that a create writes outside the FATs and the new cluster. */
  lemma MadeSectors(g: Geometry, d0: seq<Sector>, d1: seq<Sector>, own: Ownership, inode: int, ch: seq<int>,
                    s: Slot, e: DirEntry, taken: seq<int>, lba: int)
    requires Made(g, d0, d1, own, inode, ch, s, e, taken)
    requires g.RootLba() <= lba < |d0| && !OnChain(g, lba, taken)
    ensures Placed(g, d0, s) && 0 <= s.lba && |d1| == |d0| && e.Shaped() && 0 <= e.attributes < 0x100
    ensures 0 <= e.firstCluster < 0x1_0000 && 0 <= e.fileSize < 0x1_0000_0000
    ensures d1[lba] == if lba == s.lba then PutEntry(d0[s.lba], s.index, e) else d0[lba]
  {
    hide Sound, OnChain, PutEntry, FreeSet;
  }

  lemma SlotNotOwned(g: Geometry, d0: seq<Sector>, d1: seq<Sector>, own: Ownership, inode: int, ch: seq<int>,
                     s: Slot, e: DirEntry, taken: seq<int>)
    requires Made(g, d0, d1, own, inode, ch, s, e, taken)
    ensures s !in own
  {
    if s in own { OwnedIsOwner(g, d0, own, s); }
  }

  lemma MadeChains(g: Geometry, d0: seq<Sector>, d1: seq<Sector>, own: Ownership, inode: int, ch: seq<int>,
                   s: Slot, e: DirEntry, taken: seq<int>, t: Slot)
    requires Made(g, d0, d1, own, inode, ch, s, e, taken) && t in own
    ensures forall c :: c in own[t] ==> g.IsCluster(c) && c !in taken
    ensures Placed(g, d0, t) && Chain(Fat(g, d1), EntryOf(g, d0, t).firstCluster, own[t])
  {
    hide Made, Sound, Owned, Fat, Geometry.Fits;
    TakenUnowned(g, d0, d1, own, inode, ch, s, e, taken);
    UnownedApart(g, d0, own, taken, Fat(g, d1), t);
  }

  /** Every file that was there keeps its bytes. */
  lemma MadeKeepsFile(g: Geometry, d0: seq<Sector>, d1: seq<Sector>, own: Ownership, inode: int, ch: seq<int>,
                      s: Slot, e: DirEntry, taken: seq<int>, t: Slot)
    requires Made(g, d0, d1, own, inode, ch, s, e, taken)
    requires t in own && Placed(g, d0, t) && !EntryOf(g, d0, t).IsDirectory()
    ensures Clusters(g, own[t]) && Content(g, d1, own[t]) == Content(g, d0, own[t])
  {
    MadeChains(g, d0, d1, own, inode, ch, s, e, taken, t);
    forall i | 0 <= i < |own[t]| ensures SameCluster(g, d0, d1, own[t][i]) {
      MadeKeepsCluster(g, d0, d1, own, inode, ch, s, e, taken, t, own[t][i]);
    }
    ContentFrame(g, d0, d1, own[t]);
  }

  lemma MadeKeepsCluster(g: Geometry, d0: seq<Sector>, d1: seq<Sector>, own: Ownership, inode: int, ch: seq<int>,
                         s: Slot, e: DirEntry, taken: seq<int>, t: Slot, c: int)
    requires Made(g, d0, d1, own, inode, ch, s, e, taken)
    requires t in own && Placed(g, d0, t) && !EntryOf(g, d0, t).IsDirectory()
    requires c in own[t] && g.IsCluster(c) && c !in taken
    ensures SameCluster(g, d0, d1, c)
  {
    ClusterOnDisk(g, d0, c);
    forall lba | 0 <= lba < |d0| && g.InCluster(lba, c) ensures d1[lba] == d0[lba] {
      if lba == s.lba { DirSectorApart(g, d0, own, lba, t, c); }
      NotOnChain(g, lba, c, taken);
    }
  }

  /** An old directory occupies the same sectors as before. */
  lemma OldDirChain(g: Geometry, d0: seq<Sector>, d1: seq<Sector>, own: Ownership, inode: int, ch: seq<int>,
                    s: Slot, e: DirEntry, taken: seq<int>, t: Slot, lba: int)
    requires Made(g, d0, d1, own, inode, ch, s, e, taken) && t != s
    ensures DirChainAt(g, d1, Added(own, s, e, taken), t, lba) <==> DirChainAt(g, d0, own, t, lba)
  {
    hide Sound, OnChain, FreeSlotOf, EntryAt, FreeSet, Chain, DirLba;
    if t in own {
      MadeParts(g, d0, d1, own, inode, ch, s, e, taken);
      OwnedIsOwner(g, d0, own, t);
      MadeEntries(g, d0, d1, own, inode, ch, s, e, taken, t);
    }
  }

  /** The new slot holds a directory exactly when a cluster was taken for it. */
  lemma NewDirChain(g: Geometry, d0: seq<Sector>, d1: seq<Sector>, own: Ownership, inode: int, ch: seq<int>,
                    s: Slot, e: DirEntry, taken: seq<int>, lba: int)
    requires Made(g, d0, d1, own, inode, ch, s, e, taken)
    ensures e.Shaped()
    ensures DirChainAt(g, d1, Added(own, s, e, taken), s, lba) <==> Owner(e) && OnChain(g, lba, taken)
  {
    SlotNotOwned(g, d0, d1, own, inode, ch, s, e, taken);
    MadeEntries(g, d0, d1, own, inode, ch, s, e, taken, s);
    NewOwner(e, taken);
  }

  /** The directories occupy the same sectors as before, and those of a new directory. */
  lemma MadeDirLba(g: Geometry, d0: seq<Sector>, d1: seq<Sector>, own: Ownership, inode: int, ch: seq<int>,
                   s: Slot, e: DirEntry, taken: seq<int>, lba: int)
    requires Made(g, d0, d1, own, inode, ch, s, e, taken)
    ensures e.Shaped()
    ensures DirLba(g, d1, Added(own, s, e, taken), lba) <==>
      DirLba(g, d0, own, lba) || (Owner(e) && OnChain(g, lba, taken))
  {
    hide Made, Added, DirChainAt, Owner, OnChain;
    NewDirChain(g, d0, d1, own, inode, ch, s, e, taken, lba);
    SlotNotDir(g, d0, d1, own, inode, ch, s, e, taken, lba);
    forall t | t != s
      ensures DirChainAt(g, d1, Added(own, s, e, taken), t, lba) <==> DirChainAt(g, d0, own, t, lba)
    {
      OldDirChain(g, d0, d1, own, inode, ch, s, e, taken, t, lba);
    }
  }

  lemma SlotNotDir(g: Geometry, d0: seq<Sector>, d1: seq<Sector>, own: Ownership, inode: int, ch: seq<int>,
                   s: Slot, e: DirEntry, taken: seq<int>, lba: int)
    requires Made(g, d0, d1, own, inode, ch, s, e, taken)
    ensures !DirChainAt(g, d0, own, s, lba)
  {
    SlotNotOwned(g, d0, d1, own, inode, ch, s, e, taken);
  }

  lemma MadeDisjoint(g: Geometry, d0: seq<Sector>, d1: seq<Sector>, own: Ownership, inode: int, ch: seq<int>,
                     s: Slot, e: DirEntry, taken: seq<int>)
    requires Made(g, d0, d1, own, inode, ch, s, e, taken)
    ensures Disjoint(Added(own, s, e, taken))
  {
    hide Made, Sound, Owner;
    MadeParts(g, d0, d1, own, inode, ch, s, e, taken);
    SoundDisjoint(g, d0, own);
    var own' := Added(own, s, e, taken);
    forall t, u, c | t in own' && u in own' && c in own'[t] && c in own'[u] ensures t == u {
      if t in own && t != s { MadeChains(g, d0, d1, own, inode, ch, s, e, taken, t); }
      if u in own && u != s { MadeChains(g, d0, d1, own, inode, ch, s, e, taken, u); }
      SlotNotOwned(g, d0, d1, own, inode, ch, s, e, taken);
    }
  }

  lemma SoundDisjoint(g: Geometry, disk: seq<Sector>, own: Ownership)
    requires Sound(g, disk, own)
    ensures Disjoint(own)
  {
  }

  lemma MadeSlot(g: Geometry, d0: seq<Sector>, d1: seq<Sector>, own: Ownership, inode: int, ch: seq<int>,
                 s: Slot, e: DirEntry, taken: seq<int>, t: Slot)
    requires Made(g, d0, d1, own, inode, ch, s, e, taken)
    requires t in Added(own, s, e, taken)
    ensures g.Fits(d1) && SlotOk(g, d1, Added(own, s, e, taken), t)
  {
    SlotNotOwned(g, d0, d1, own, inode, ch, s, e, taken);
    if t != s { assert SlotOk(g, d0, own, t); }
    MadeEntries(g, d0, d1, own, inode, ch, s, e, taken, t);
    MadeDirLba(g, d0, d1, own, inode, ch, s, e, taken, t.lba);
    if t != s {
      MadeChains(g, d0, d1, own, inode, ch, s, e, taken, t);
    } else {
      NewOwner(e, taken);
      NewChain(g, d0, d1, own, inode, ch, s, e, taken);
    }
  }

  lemma NewChain(g: Geometry, d0: seq<Sector>, d1: seq<Sector>, own: Ownership, inode: int, ch: seq<int>,
                 s: Slot, e: DirEntry, taken: seq<int>)
    requires Made(g, d0, d1, own, inode, ch, s, e, taken)
    ensures Chain(Fat(g, d1), e.firstCluster, taken)
  {
    if taken != [] { assert LinkAt(Fat(g, d1), taken, 0); }
  }

  lemma MadeComplete(g: Geometry, d0: seq<Sector>, d1: seq<Sector>, own: Ownership, inode: int, ch: seq<int>,
                     s: Slot, e: DirEntry, taken: seq<int>)
    requires Made(g, d0, d1, own, inode, ch, s, e, taken)
    requires Emptied(g, d1, inode, taken)
    ensures Complete(g, d1, Added(own, s, e, taken))
  {
    var own' := Added(own, s, e, taken);
    forall t | Placed(g, d1, t) && DirLba(g, d1, own', t.lba) && Owner(EntryOf(g, d1, t)) ensures t in own' {
      MadeDirLba(g, d0, d1, own, inode, ch, s, e, taken, t.lba);
      if DirLba(g, d0, own, t.lba) {
        MadeEntries(g, d0, d1, own, inode, ch, s, e, taken, t);
      } else {
        NewDirEntry(g, d0, d1, own, inode, ch, s, e, taken, t);
      }
    }
  }

  /** The new directory holds only its dot entries, which own nothing. */
  lemma NewDirEntry(g: Geometry, d0: seq<Sector>, d1: seq<Sector>, own: Ownership, inode: int, ch: seq<int>,
                    s: Slot, e: DirEntry, taken: seq<int>, t: Slot)
    requires Made(g, d0, d1, own, inode, ch, s, e, taken) && Placed(g, d1, t) && OnChain(g, t.lba, taken)
    requires Emptied(g, d1, inode, taken)
    ensures !Owner(EntryOf(g, d1, t))
  {
    hide Sound, FreeSlotOf, EntryAt, DotSector, ZeroSector, Fat, FreeSet;
    var c := taken[0];
    if t.lba == g.ClusterLba(c) {
      DotEntries(c, inode, t.index);
    } else {
      ZeroEntry(t.index);
    }
  }

  lemma MadeIsDir(g: Geometry, d0: seq<Sector>, d1: seq<Sector>, own: Ownership, inode: int, ch: seq<int>,
                  s: Slot, e: DirEntry, taken: seq<int>, inode': int, ch': seq<int>)
    requires Made(g, d0, d1, own, inode, ch, s, e, taken) && DirOf(g, d0, own, inode', ch')
    ensures g.Fits(d0) && TidyDir(g, d0, inode', ch') && g.Fits(d1) && IsDir(g, d1, inode', ch')
  {
    DirOfIsDir(g, d0, own, inode', ch');
    if inode' != 0 {
      var t :| DirNamed(g, d0, own, t, inode', ch');
      MadeChains(g, d0, d1, own, inode, ch, s, e, taken, t);
    }
  }

  lemma MadeDirEntry(g: Geometry, d0: seq<Sector>, d1: seq<Sector>, own: Ownership, inode: int, ch: seq<int>,
                     s: Slot, e: DirEntry, taken: seq<int>, inode': int, ch': seq<int>, j: nat)
    requires Made(g, d0, d1, own, inode, ch, s, e, taken) && DirOf(g, d0, own, inode', ch')
    requires g.Fits(d1) && IsDir(g, d0, inode', ch') && IsDir(g, d1, inode', ch')
    requires j < |Entries(g, d0, inode', ch')|
    ensures Entries(g, d1, inode', ch')[j] ==
      if inode' == inode && j == FirstFree(Entries(g, d0, inode, ch)) then e else Entries(g, d0, inode', ch')[j]
  {
    var k := FirstFree(Entries(g, d0, inode, ch));
    SlotAtEntry(g, d0, own, inode', ch', j);
    var t := SlotAt(g, inode', ch', j);
    MadeEntries(g, d0, d1, own, inode, ch, s, e, taken, t);
    assert Entries(g, d1, inode', ch')[j] == EntryOf(g, d1, t);
    if t == s {
      SlotAtInjective(g, d0, own, inode, ch, k, inode', ch', j);
    } else if inode' == inode {
      SameInode(g, d0, own, inode, ch, ch');
    }
  }

  lemma SameInode(g: Geometry, disk: seq<Sector>, own: Ownership, inode: int, ch: seq<int>, ch': seq<int>)
    requires g.Fits(disk) && DirOf(g, disk, own, inode, ch) && DirOf(g, disk, own, inode, ch')
    requires IsDir(g, disk, inode, ch) && IsDir(g, disk, inode, ch')
    ensures ch == ch'
  {
    if inode != 0 { ChainUnique(Fat(g, disk), inode, ch, ch'); }
  }

  /** Creating puts the entry at the first free slot of its directory; every other
      directory keeps its entries. */
  lemma MadeDir(g: Geometry, d0: seq<Sector>, d1: seq<Sector>, own: Ownership, inode: int, ch: seq<int>,
                s: Slot, e: DirEntry, taken: seq<int>, inode': int, ch': seq<int>)
    requires Made(g, d0, d1, own, inode, ch, s, e, taken) && DirOf(g, d0, own, inode', ch')
    ensures TidyDir(g, d0, inode', ch') && TidyDir(g, d1, inode', ch')
    ensures var es := Entries(g, d0, inode', ch');
      Entries(g, d1, inode', ch') ==
        if inode' == inode then
          (if FirstFree(Entries(g, d0, inode, ch)) < |es| then es[FirstFree(Entries(g, d0, inode, ch)) := e] else es)
        else es
  {
    hide FirstFree, Sound, DirOf, IsDir, Geometry.Fits, Fat, FreeSet;
    MadeIsDir(g, d0, d1, own, inode, ch, s, e, taken, inode', ch');
    var es, es' := Entries(g, d0, inode', ch'), Entries(g, d1, inode', ch');
    forall j | 0 <= j < |es|
      ensures es'[j] == if inode' == inode && j == FirstFree(Entries(g, d0, inode, ch)) then e else es[j]
    {
      MadeDirEntry(g, d0, d1, own, inode, ch, s, e, taken, inode', ch', j);
    }
    if inode' == inode {
      SameInode(g, d0, own, inode, ch, ch');
      FillTidy(es, e);
    }
  }

  /** Filling the first free slot keeps the end marks together. */
  lemma FillTidy(es: seq<DirEntry>, e: DirEntry)
    requires Shapes(es) && TidyEntries(es) && e.Shaped() && !e.IsEnd() && FirstFree(es) < |es|
    ensures Shapes(es[FirstFree(es) := e]) && TidyEntries(es[FirstFree(es) := e])
  {
  }

  /** A new directory is tidy: two dot entries, then end marks. */
  lemma NewDirTidy(g: Geometry, d1: seq<Sector>, c: int, parent: int)
    requires g.Fits(d1) && g.IsCluster(c) && 0 <= parent < 0x1_0000 && EmptyDir(g, d1, c, parent)
    requires c < 0x1_0000 && Chain(Fat(g, d1), c, [c])
    ensures TidyDir(g, d1, c, [c])
    ensures var es := Entries(g, d1, c, [c]);
      |es| >= 16 && es[0] == DotEntry(c) && es[1] == DotDotEntry(parent) && forall j :: 2 <= j < |es| ==> es[j].IsEnd()
  {
    assert IsDir(g, d1, c, [c]);
    var es := Entries(g, d1, c, [c]);
    assert DirSectors(g, c, [c]) == g.sectorsPerCluster;
    forall j | 0 <= j < |es|
      ensures if j == 0 then es[j] == DotEntry(c) else if j == 1 then es[j] == DotDotEntry(parent) else es[j].IsEnd()
    {
      NewDirEntryAt(g, d1, c, parent, j);
    }
  }

  lemma NewDirEntryAt(g: Geometry, d1: seq<Sector>, c: int, parent: int, j: nat)
    requires g.Fits(d1) && g.IsCluster(c) && 0 <= parent < 0x1_0000 && EmptyDir(g, d1, c, parent)
    requires c < 0x1_0000 && IsDir(g, d1, c, [c]) && j < DirSectors(g, c, [c]) * 16
    ensures var e := DirEntryAt(g, d1, c, [c], j);
      if j == 0 then e == DotEntry(c) else if j == 1 then e == DotDotEntry(parent) else e.IsEnd()
  {
    hide EntryAt, DotSector, PutEntry, ZeroSector, Geometry.Fits, IsDir;
    var n := j / 16;
    DirSectorOnDisk(g, d1, c, [c], n);
    OneCluster(g, c, n);
    if n == 0 {
      DotEntries(c, parent, j % 16);
    } else {
      ZeroEntry(j % 16);
    }
  }

  /** A directory of one cluster: its sectors are the cluster's. */
  lemma OneCluster(g: Geometry, c: int, n: nat)
    requires g.sectorsPerCluster > 0 && c != 0 && n < DirSectors(g, c, [c])
    ensures n / g.sectorsPerCluster == 0 && n % g.sectorsPerCluster == n < g.sectorsPerCluster
  {
    assert DirSectors(g, c, [c]) == g.sectorsPerCluster;
  }

  lemma MadeTidy(g: Geometry, d0: seq<Sector>, d1: seq<Sector>, own: Ownership, inode: int, ch: seq<int>,
                 s: Slot, e: DirEntry, taken: seq<int>)
    requires Made(g, d0, d1, own, inode, ch, s, e, taken) && g.Fits(d1) && Emptied(g, d1, inode, taken)
    ensures Tidy(g, d1, Added(own, s, e, taken))
  {
    var own' := Added(own, s, e, taken);
    MadeDir(g, d0, d1, own, inode, ch, s, e, taken, 0, []);
    forall t | t in own' && Placed(g, d1, t) && EntryOf(g, d1, t).IsDirectory()
      ensures TidyDir(g, d1, EntryOf(g, d1, t).firstCluster, own'[t])
    {
      MadeTidyAt(g, d0, d1, own, inode, ch, s, e, taken, t);
    }
  }

  lemma MadeTidyAt(g: Geometry, d0: seq<Sector>, d1: seq<Sector>, own: Ownership, inode: int, ch: seq<int>,
                   s: Slot, e: DirEntry, taken: seq<int>, t: Slot)
    requires Made(g, d0, d1, own, inode, ch, s, e, taken) && g.Fits(d1) && Emptied(g, d1, inode, taken)
    requires t in Added(own, s, e, taken) && Placed(g, d1, t) && EntryOf(g, d1, t).IsDirectory()
    ensures TidyDir(g, d1, EntryOf(g, d1, t).firstCluster, Added(own, s, e, taken)[t])
  {
    hide Made, Geometry.Fits, Fat, TidyDir;
    MadeParts(g, d0, d1, own, inode, ch, s, e, taken);
    SlotNotOwned(g, d0, d1, own, inode, ch, s, e, taken);
    if t == s {
      MadeEntries(g, d0, d1, own, inode, ch, s, e, taken, s);
      NewOwner(e, taken);
      NewChain(g, d0, d1, own, inode, ch, s, e, taken);
      assert taken == [taken[0]];
      NewDirTidy(g, d1, taken[0], inode);
    } else {
      OldDirTidy(g, d0, d1, own, inode, ch, s, e, taken, t);
    }
  }

  lemma MadeParts(g: Geometry, d0: seq<Sector>, d1: seq<Sector>, own: Ownership, inode: int, ch: seq<int>,
                  s: Slot, e: DirEntry, taken: seq<int>)
    requires Made(g, d0, d1, own, inode, ch, s, e, taken)
    ensures Sound(g, d0, own) && NewEntry(e, taken) && 0 <= inode < 0x1_0000
    ensures Placed(g, d0, s) && DirLba(g, d0, own, s.lba)
  {
  }

  lemma OldDirTidy(g: Geometry, d0: seq<Sector>, d1: seq<Sector>, own: Ownership, inode: int, ch: seq<int>,
                   s: Slot, e: DirEntry, taken: seq<int>, t: Slot)
    requires Made(g, d0, d1, own, inode, ch, s, e, taken) && g.Fits(d1)
    requires t in own && t != s && Placed(g, d1, t) && EntryOf(g, d1, t).IsDirectory()
    ensures TidyDir(g, d1, EntryOf(g, d1, t).firstCluster, own[t])
  {
    OwnedIsOwner(g, d0, own, t);
    MadeEntries(g, d0, d1, own, inode, ch, s, e, taken, t);
    OwnedDir(g, d0, own, t);
    MadeDir(g, d0, d1, own, inode, ch, s, e, taken, EntryOf(g, d0, t).firstCluster, own[t]);
  }

  lemma MadeLeads(g: Geometry, d0: seq<Sector>, d1: seq<Sector>, own: Ownership, inode: int, ch: seq<int>,
                  s: Slot, e: DirEntry, taken: seq<int>, inode': int)
    requires Made(g, d0, d1, own, inode, ch, s, e, taken) && LeadsToDir(g, d0, own, inode')
    ensures e.Shaped() && LeadsToDir(g, d1, Added(own, s, e, taken), inode')
  {
    hide Sound, FreeSlotOf;
    var own' := Added(own, s, e, taken);
    var ch' :| DirOf(g, d0, own, inode', ch');
    if inode' != 0 {
      var t :| DirNamed(g, d0, own, t, inode', ch');
      SlotNotOwned(g, d0, d1, own, inode, ch, s, e, taken);
      OwnedIsOwner(g, d0, own, t);
      MadeEntries(g, d0, d1, own, inode, ch, s, e, taken, t);
      assert DirNamed(g, d1, own', t, inode', ch');
    }
    assert DirOf(g, d1, own', inode', ch');
  }

  /** The visible entries of the new directory are "." and "..". */
  lemma NewDotEntry(g: Geometry, d0: seq<Sector>, d1: seq<Sector>, own: Ownership, inode: int, ch: seq<int>,
                    s: Slot, e: DirEntry, taken: seq<int>, t: Slot)
    requires Made(g, d0, d1, own, inode, ch, s, e, taken) && Emptied(g, d1, inode, taken)
    requires Placed(g, d1, t) && OnChain(g, t.lba, taken) && Dotted(EntryOf(g, d1, t))
    ensures taken != [] && EntryOf(g, d1, t).IsDirectory()
    ensures EntryOf(g, d1, t).firstCluster == taken[0] || EntryOf(g, d1, t).firstCluster == inode
  {
    hide Made, Emptied, OnChain, EntryAt, DotSector, ZeroSector, Geometry.Fits;
    NewDirSector(g, d0, d1, own, inode, ch, s, e, taken, t.lba);
    if t.lba == g.ClusterLba(taken[0]) {
      DotEntries(taken[0], inode, t.index);
    } else {
      ZeroEntry(t.index);
    }
  }

  /** What the sectors of a new directory hold. */
  lemma NewDirSector(g: Geometry, d0: seq<Sector>, d1: seq<Sector>, own: Ownership, inode: int, ch: seq<int>,
                     s: Slot, e: DirEntry, taken: seq<int>, lba: int)
    requires Made(g, d0, d1, own, inode, ch, s, e, taken) && Emptied(g, d1, inode, taken) && OnChain(g, lba, taken)
    ensures |taken| == 1 && 2 <= taken[0] < 0x1_0000 && 0 <= lba < |d1| && 0 <= inode < 0x1_0000
    ensures d1[lba] == if lba == g.ClusterLba(taken[0]) then DotSector(taken[0], inode) else ZeroSector()
  {
    hide Made, DotSector, ZeroSector, Geometry.Fits, Geometry.ClusterLba, Geometry.IsCluster;
    MadeTaken(g, d0, d1, own, inode, ch, s, e, taken);
    assert taken != [];
    ClusterOnDisk(g, d1, taken[0]);
  }

  lemma MadeTaken(g: Geometry, d0: seq<Sector>, d1: seq<Sector>, own: Ownership, inode: int, ch: seq<int>,
                  s: Slot, e: DirEntry, taken: seq<int>)
    requires Made(g, d0, d1, own, inode, ch, s, e, taken)
    ensures g.Fits(d1) && |d1| == |d0| && 0 <= inode < 0x1_0000
    ensures taken != [] ==> |taken| == 1 && 2 <= taken[0] < 0x1_0000
  {
    hide SlotOk, DotsLead, FreeSlotOf, Fat, FreeSet, IsDir, CopiesAgree, PutEntry, OnChain;
  }

  /** They lead to itself and to the directory it was made in. */
  lemma NewDotLeads(g: Geometry, d0: seq<Sector>, d1: seq<Sector>, own: Ownership, inode: int, ch: seq<int>,
                    s: Slot, e: DirEntry, taken: seq<int>, t: Slot)
    requires Made(g, d0, d1, own, inode, ch, s, e, taken) && Emptied(g, d1, inode, taken) && Owner(e)
    requires Placed(g, d1, t) && OnChain(g, t.lba, taken) && Dotted(EntryOf(g, d1, t))
    ensures EntryOf(g, d1, t).IsDirectory()
    ensures LeadsToDir(g, d1, Added(own, s, e, taken), EntryOf(g, d1, t).firstCluster)
  {
    hide Made, Emptied, OnChain, EntryAt, LeadsToDir, Dotted, Owner, Added;
    NewDotEntry(g, d0, d1, own, inode, ch, s, e, taken, t);
    NewDirLeads(g, d0, d1, own, inode, ch, s, e, taken);
    MadeInDir(g, d0, d1, own, inode, ch, s, e, taken);
    MadeLeads(g, d0, d1, own, inode, ch, s, e, taken, inode);
  }

  lemma MadeInDir(g: Geometry, d0: seq<Sector>, d1: seq<Sector>, own: Ownership, inode: int, ch: seq<int>,
                  s: Slot, e: DirEntry, taken: seq<int>)
    requires Made(g, d0, d1, own, inode, ch, s, e, taken)
    ensures LeadsToDir(g, d0, own, inode)
  {
    hide Sound, FreeSlotOf;
  }

  lemma NewDirLeads(g: Geometry, d0: seq<Sector>, d1: seq<Sector>, own: Ownership, inode: int, ch: seq<int>,
                    s: Slot, e: DirEntry, taken: seq<int>)
    requires Made(g, d0, d1, own, inode, ch, s, e, taken) && Owner(e) && taken != []
    ensures LeadsToDir(g, d1, Added(own, s, e, taken), taken[0])
  {
    hide Sound, FreeSlotOf;
    MadeParts(g, d0, d1, own, inode, ch, s, e, taken);
    MadeEntries(g, d0, d1, own, inode, ch, s, e, taken, s);
    NewOwner(e, taken);
    assert DirNamed(g, d1, Added(own, s, e, taken), s, taken[0], taken);
    assert DirOf(g, d1, Added(own, s, e, taken), taken[0], taken);
  }

  lemma MadeDots(g: Geometry, d0: seq<Sector>, d1: seq<Sector>, own: Ownership, inode: int, ch: seq<int>,
                 s: Slot, e: DirEntry, taken: seq<int>)
    requires Made(g, d0, d1, own, inode, ch, s, e, taken) && g.Fits(d1) && Emptied(g, d1, inode, taken)
    ensures DotsLead(g, d1, Added(own, s, e, taken))
  {
    hide Made, Emptied, DirLba, LeadsToDir, Dotted, EntryAt;
    MadeParts(g, d0, d1, own, inode, ch, s, e, taken);
    var own' := Added(own, s, e, taken);
    forall t | Placed(g, d1, t) && DirLba(g, d1, own', t.lba) && Dotted(EntryOf(g, d1, t))
      ensures EntryOf(g, d1, t).IsDirectory() && LeadsToDir(g, d1, own', EntryOf(g, d1, t).firstCluster)
    {
      MadeDirLba(g, d0, d1, own, inode, ch, s, e, taken, t.lba);
      if DirLba(g, d0, own, t.lba) {
        MadeDotAt(g, d0, d1, own, inode, ch, s, e, taken, t);
      } else {
        NewDotLeads(g, d0, d1, own, inode, ch, s, e, taken, t);
      }
    }
  }

  lemma MadeDotAt(g: Geometry, d0: seq<Sector>, d1: seq<Sector>, own: Ownership, inode: int, ch: seq<int>,
                  s: Slot, e: DirEntry, taken: seq<int>, t: Slot)
    requires Made(g, d0, d1, own, inode, ch, s, e, taken)
    requires Placed(g, d1, t) && DirLba(g, d0, own, t.lba) && Dotted(EntryOf(g, d1, t))
    ensures EntryOf(g, d1, t).IsDirectory()
    ensures LeadsToDir(g, d1, Added(own, s, e, taken), EntryOf(g, d1, t).firstCluster)
  {
    hide FreeSlotOf, DirLba, LeadsToDir;
    MadeEntries(g, d0, d1, own, inode, ch, s, e, taken, t);
    MadeLeads(g, d0, d1, own, inode, ch, s, e, taken, EntryOf(g, d0, t).firstCluster);
  }

  /** The volume stays sound. */
  lemma MadeKeeps(g: Geometry, d0: seq<Sector>, d1: seq<Sector>, own: Ownership, inode: int, ch: seq<int>,
                  s: Slot, e: DirEntry, taken: seq<int>)
    requires Made(g, d0, d1, own, inode, ch, s, e, taken) && g.Fits(d1) && Emptied(g, d1, inode, taken)
    ensures Sound(g, d1, Added(own, s, e, taken))
  {
    forall t | t in Added(own, s, e, taken) ensures SlotOk(g, d1, Added(own, s, e, taken), t) {
      MadeSlot(g, d0, d1, own, inode, ch, s, e, taken, t);
    }
    MadeDisjoint(g, d0, d1, own, inode, ch, s, e, taken);
    MadeComplete(g, d0, d1, own, inode, ch, s, e, taken);
    MadeTidy(g, d0, d1, own, inode, ch, s, e, taken);
    MadeDots(g, d0, d1, own, inode, ch, s, e, taken);
  }

  /** No cluster is lost, except that of a new directory whose entry reads as deleted. */
  lemma MadeAccounts(g: Geometry, d0: seq<Sector>, d1: seq<Sector>, own: Ownership, inode: int, ch: seq<int>,
                     s: Slot, e: DirEntry, taken: seq<int>)
    requires Made(g, d0, d1, own, inode, ch, s, e, taken) && g.Fits(d1)
    ensures Elements(taken) <= Accounted(g, d0, own)
    ensures Accounted(g, d1, Added(own, s, e, taken)) ==
      Accounted(g, d0, own) - (if e.name[0] == DELETED then Elements(taken) else {})
  {
    hide Made, Sound, Accounted, FreeSet, Owned, Added, Fat, Geometry.Fits;
    MadeFree(g, d0, d1, own, inode, ch, s, e, taken);
    var own' := Added(own, s, e, taken);
    forall c
      ensures c in taken ==> c in Accounted(g, d0, own)
      ensures c in Accounted(g, d1, own') <==> c in Accounted(g, d0, own) && (Owner(e) || c !in taken)
    {
      OwnedAdds(own, s, e, taken, c);
      InAccounted(g, d0, own, c);
      InAccounted(g, d1, own', c);
    }
  }

  lemma InAccounted(g: Geometry, disk: seq<Sector>, own: Ownership, c: int)
    requires g.Fits(disk)
    ensures c in Accounted(g, disk, own) <==> c in FreeSet(Fat(g, disk)) || c in Owned(own)
  {
  }

  /** The clusters that were free before and after, and what is known about the entry. */
  lemma MadeFree(g: Geometry, d0: seq<Sector>, d1: seq<Sector>, own: Ownership, inode: int, ch: seq<int>,
                 s: Slot, e: DirEntry, taken: seq<int>)
    requires Made(g, d0, d1, own, inode, ch, s, e, taken) && g.Fits(d1)
    ensures e.Shaped() && s !in own && g.Fits(d0) && (Owner(e) <==> e.name[0] != DELETED)
    ensures forall c :: c in FreeSet(Fat(g, d1)) <==> c in FreeSet(Fat(g, d0)) && c !in taken
    ensures forall c :: c in taken ==> c in FreeSet(Fat(g, d0)) && c !in Owned(own)
  {
    hide Made, Sound, Owned;
    SlotNotOwned(g, d0, d1, own, inode, ch, s, e, taken);
    MadeParts(g, d0, d1, own, inode, ch, s, e, taken);
    NewOwner(e, taken);
    TakenUnowned(g, d0, d1, own, inode, ch, s, e, taken);
    TakenMarked(g, d0, d1, own, inode, ch, s, e, taken);
  }

  lemma TakenMarked(g: Geometry, d0: seq<Sector>, d1: seq<Sector>, own: Ownership, inode: int, ch: seq<int>,
                    s: Slot, e: DirEntry, taken: seq<int>)
    requires Made(g, d0, d1, own, inode, ch, s, e, taken) && g.Fits(d1)
    ensures forall c :: c in taken ==> 0 <= c < g.Entries() && Fat(g, d1)[c] == 0xFFFF
  {
    hide Sound, FreeSlotOf;
  }

  lemma OwnedAdds(own: Ownership, s: Slot, e: DirEntry, taken: seq<int>, c: int)
    requires s !in own && e.Shaped()
    ensures c in Owned(Added(own, s, e, taken)) <==> c in Owned(own) || (Owner(e) && c in taken)
  {
    var own' := Added(own, s, e, taken);
    if c in Owned(own') {
      var t :| t in own' && c in own'[t];
    }
    if c in Owned(own) {
      var t :| t in own && c in own[t];
      assert c in own'[t];
    }
    if Owner(e) && c in taken {
      assert c in own'[s];
    }
  }

  // ---- The listing ----

  lemma {:induction false} ListedConcat(a: seq<DirEntry>, b: seq<DirEntry>)
    requires Shapes(a) && Shapes(b) && forall j :: 0 <= j < |a| ==> !a[j].IsEnd()
    ensures Shapes(a + b) && Listed(a + b) == Listed(a) + Listed(b)
  {
    if a == [] {
      assert a + b == b;
    } else {
      assert (a + b)[1..] == a[1..] + b;
      ListedConcat(a[1..], b);
    }
  }

  /** Filling the first free slot of a tidy directory inserts exactly that entry into the
      listing and keeps the others in order; an entry that reads as deleted is not listed. */
  lemma FillInserts(es: seq<DirEntry>, e: DirEntry)
    requires Shapes(es) && TidyEntries(es) && e.Shaped() && !e.IsEnd() && FirstFree(es) < |es|
    ensures var k := FirstFree(es); var p := |Listed(es[..k])|;
      Shapes(es[k := e]) && p <= |Listed(es)| &&
      Listed(es[k := e]) == Listed(es)[..p] + (if Shown(e) then [e] else []) + Listed(es)[p..]
  {
    hide Listed, FirstFree, Shown;
    var k := FirstFree(es);
    var a, b := es[..k], es[k + 1..];
    assert es == a + ([es[k]] + b) && es[k := e] == a + ([e] + b);
    ListedConcat(a, [es[k]] + b);
    ListedConcat(a, [e] + b);
    FreeSlotUnlisted(es[k], b);
    ListedCons(e, b);
    InsertAt(Listed(a), if Shown(e) then [e] else [], Listed(b));
  }

  /** A free slot contributes nothing to the listing. */
  lemma FreeSlotUnlisted(x: DirEntry, b: seq<DirEntry>)
    requires x.Shaped() && Shapes(b) && x.IsFreeSlot() && (x.IsEnd() && b != [] ==> b[0].IsEnd())
    ensures Listed([x] + b) == Listed(b)
  {
    ListedCons(x, b);
  }

  lemma InsertAt<T>(a: seq<T>, x: seq<T>, b: seq<T>)
    ensures a + (x + b) == (a + b)[..|a|] + x + (a + b)[|a|..]
    ensures a + ([] + b) == a + b && a + [] == a
  {
  }

  lemma ListedCons(e: DirEntry, b: seq<DirEntry>)
    requires e.Shaped() && Shapes(b)
    ensures Listed([e] + b) == if e.IsEnd() then [] else (if Shown(e) then [e] else []) + Listed(b)
  {
    assert ([e] + b)[1..] == b;
  }
}
