/** A write keeps the volume well formed, every other file's bytes, and every cluster. */
module FatWriteKeeps {
  import opened Collections
  import opened Bytes
  import opened FatLayout
  import opened FatTable
  import opened FatChain
  import opened FatData
  import opened FatEntryCodec
  import opened FatWrite
  import opened FatDir
  import opened FatVolume

  /** A finished write to the file at `slot` of a well-formed volume. */
  ghost predicate WroteTo(g: Geometry, d0: seq<Sector>, d1: seq<Sector>, own: Ownership, slot: Slot,
                          ext: seq<int>, offset: nat, data: seq<Byte>, first: int, size: int)
  {
    && Sound(g, d0, own) && slot in own && Placed(g, d0, slot) && !EntryOf(g, d0, slot).IsDirectory()
    && 0 <= first < 0x1_0000 && 0 <= size < 0x1_0000_0000
    && Stored(g, d0, d1, own[slot], ext, offset, data, slot.lba, slot.index, first, size)
    && own[slot] + ext != []
  }

  ghost function Grew(own: Ownership, slot: Slot, ext: seq<int>): Ownership
    requires slot in own
  {
    own[slot := own[slot] + ext]
  }

  lemma DirSectorOffChain(g: Geometry, d0: seq<Sector>, d1: seq<Sector>, own: Ownership, slot: Slot,
                          ext: seq<int>, offset: nat, data: seq<Byte>, first: int, size: int, lba: int)
    requires WroteTo(g, d0, d1, own, slot, ext, offset, data, first, size)
    requires DirLba(g, d0, own, lba)
    ensures !OnChain(g, lba, own[slot] + ext)
  {
    if OnChain(g, lba, own[slot] + ext) {
      var i :| 0 <= i < |own[slot] + ext| && g.InCluster(lba, (own[slot] + ext)[i]);
      DirSectorApart(g, d0, own, lba, slot, (own[slot] + ext)[i]);
      assert false;
    }
  }

  /** Every entry of every directory stays, but for the location fields at the slot. */
  lemma WriteEntries(g: Geometry, d0: seq<Sector>, d1: seq<Sector>, own: Ownership, slot: Slot,
                     ext: seq<int>, offset: nat, data: seq<Byte>, first: int, size: int, t: Slot)
    requires WroteTo(g, d0, d1, own, slot, ext, offset, data, first, size)
    requires Placed(g, d0, t) && DirLba(g, d0, own, t.lba)
    ensures |d1| == |d0| && EntryOf(g, d1, t) ==
      if t == slot then EntryOf(g, d0, t).(firstCluster := first, fileSize := size) else EntryOf(g, d0, t)
  {
    DirSectorOffChain(g, d0, d1, own, slot, ext, offset, data, first, size, t.lba);
    LocationPut(d0[slot.lba], slot.index, first, size);
  }

  /** Chains of the other slots are untouched and stay apart from the grown one. */
  lemma WriteChains(g: Geometry, d0: seq<Sector>, d1: seq<Sector>, own: Ownership, slot: Slot,
                    ext: seq<int>, offset: nat, data: seq<Byte>, first: int, size: int, t: Slot)
    requires WroteTo(g, d0, d1, own, slot, ext, offset, data, first, size)
    requires t in own && t != slot
    ensures forall c :: c in own[t] ==> g.IsCluster(c) && c !in own[slot] + ext
    ensures Placed(g, d0, t) && Chain(Fat(g, d1), EntryOf(g, d0, t).firstCluster, own[t])
  {
    assert SlotOk(g, d0, own, t);
    forall c | c in own[t] ensures g.IsCluster(c) && c !in own[slot] + ext && Fat(g, d1)[c] == Fat(g, d0)[c] {
      OwnedAllocated(g, d0, own, t, c);
    }
    ChainFrame(Fat(g, d0), Fat(g, d1), EntryOf(g, d0, t).firstCluster, own[t]);
  }

  /** Every other file keeps its bytes. */
  lemma WriteKeepsFile(g: Geometry, d0: seq<Sector>, d1: seq<Sector>, own: Ownership, slot: Slot,
                       ext: seq<int>, offset: nat, data: seq<Byte>, first: int, size: int, t: Slot)
    requires WroteTo(g, d0, d1, own, slot, ext, offset, data, first, size)
    requires t in own && t != slot && Placed(g, d0, t) && !EntryOf(g, d0, t).IsDirectory()
    ensures Clusters(g, own[t]) && |d1| == |d0|
    ensures Content(g, d1, own[t]) == Content(g, d0, own[t])
  {
    WriteChains(g, d0, d1, own, slot, ext, offset, data, first, size, t);
    assert SlotOk(g, d0, own, slot);
    forall i | 0 <= i < |own[t]| ensures SameCluster(g, d0, d1, own[t][i]) {
      WriteKeepsCluster(g, d0, d1, own, slot, ext, offset, data, first, size, t, own[t][i]);
    }
    ContentFrame(g, d0, d1, own[t]);
  }

  lemma WriteKeepsCluster(g: Geometry, d0: seq<Sector>, d1: seq<Sector>, own: Ownership, slot: Slot,
                          ext: seq<int>, offset: nat, data: seq<Byte>, first: int, size: int, t: Slot, c: int)
    requires WroteTo(g, d0, d1, own, slot, ext, offset, data, first, size)
    requires t in own && Placed(g, d0, t) && !EntryOf(g, d0, t).IsDirectory()
    requires c in own[t] && g.IsCluster(c) && c !in own[slot] + ext
    ensures |d1| == |d0| && SameCluster(g, d0, d1, c)
  {
    assert SlotOk(g, d0, own, slot);
    ClusterOnDisk(g, d0, c);
    forall lba | 0 <= lba < |d0| && g.InCluster(lba, c) ensures d1[lba] == d0[lba] {
      if lba == slot.lba { DirSectorApart(g, d0, own, lba, t, c); }
      NotOnChain(g, lba, c, own[slot] + ext);
    }
  }

  lemma NotOnChain(g: Geometry, lba: int, c: int, ch: seq<int>)
    requires g.Valid() && g.InCluster(lba, c) && c !in ch
    ensures !OnChain(g, lba, ch)
  {
    forall i | 0 <= i < |ch| ensures !g.InCluster(lba, ch[i]) {
      if g.InCluster(lba, ch[i]) { ClusterInjective(g, lba, c, ch[i]); }
    }
  }

  /** The directories occupy the same sectors as before. */
  lemma WriteDirLba(g: Geometry, d0: seq<Sector>, d1: seq<Sector>, own: Ownership, slot: Slot,
                    ext: seq<int>, offset: nat, data: seq<Byte>, first: int, size: int, lba: int)
    requires WroteTo(g, d0, d1, own, slot, ext, offset, data, first, size)
    ensures DirLba(g, d1, Grew(own, slot, ext), lba) <==> DirLba(g, d0, own, lba)
  {
    var own' := Grew(own, slot, ext);
    forall s ensures DirChainAt(g, d1, own', s, lba) <==> DirChainAt(g, d0, own, s, lba) {
      if s in own {
        assert SlotOk(g, d0, own, s);
        WriteEntries(g, d0, d1, own, slot, ext, offset, data, first, size, s);
      }
    }
    if DirLba(g, d1, own', lba) && !(g.RootLba() <= lba < g.DataLba()) {
      var s :| DirChainAt(g, d1, own', s, lba);
      assert DirChainAt(g, d0, own, s, lba);
    }
    if DirLba(g, d0, own, lba) && !(g.RootLba() <= lba < g.DataLba()) {
      var s :| DirChainAt(g, d0, own, s, lba);
      assert DirChainAt(g, d1, own', s, lba);
    }
  }

  lemma WriteDisjoint(g: Geometry, d0: seq<Sector>, d1: seq<Sector>, own: Ownership, slot: Slot,
                      ext: seq<int>, offset: nat, data: seq<Byte>, first: int, size: int)
    requires WroteTo(g, d0, d1, own, slot, ext, offset, data, first, size)
    ensures Disjoint(Grew(own, slot, ext))
  {
    var own' := Grew(own, slot, ext);
    forall s, t, c | s in own' && t in own' && c in own'[s] && c in own'[t] ensures s == t {
      if s != slot { WriteChains(g, d0, d1, own, slot, ext, offset, data, first, size, s); }
      if t != slot { WriteChains(g, d0, d1, own, slot, ext, offset, data, first, size, t); }
    }
  }

  lemma WriteSlot(g: Geometry, d0: seq<Sector>, d1: seq<Sector>, own: Ownership, slot: Slot,
                  ext: seq<int>, offset: nat, data: seq<Byte>, first: int, size: int, s: Slot)
    requires WroteTo(g, d0, d1, own, slot, ext, offset, data, first, size)
    requires s in own
    ensures g.Fits(d1) && SlotOk(g, d1, Grew(own, slot, ext), s)
  {
    assert SlotOk(g, d0, own, s);
    WriteEntries(g, d0, d1, own, slot, ext, offset, data, first, size, s);
    WriteDirLba(g, d0, d1, own, slot, ext, offset, data, first, size, s.lba);
    if s != slot { WriteChains(g, d0, d1, own, slot, ext, offset, data, first, size, s); }
  }

  lemma WriteComplete(g: Geometry, d0: seq<Sector>, d1: seq<Sector>, own: Ownership, slot: Slot,
                      ext: seq<int>, offset: nat, data: seq<Byte>, first: int, size: int)
    requires WroteTo(g, d0, d1, own, slot, ext, offset, data, first, size)
    ensures Complete(g, d1, Grew(own, slot, ext))
  {
    forall s | Placed(g, d1, s) && DirLba(g, d1, Grew(own, slot, ext), s.lba) && Owner(EntryOf(g, d1, s))
      ensures s in Grew(own, slot, ext)
    {
      WriteDirLba(g, d0, d1, own, slot, ext, offset, data, first, size, s.lba);
      WriteEntries(g, d0, d1, own, slot, ext, offset, data, first, size, s);
    }
  }

  /** Directories keep their entries, up to the location of the written file. */
  lemma WriteDir(g: Geometry, d0: seq<Sector>, d1: seq<Sector>, own: Ownership, slot: Slot,
                 ext: seq<int>, offset: nat, data: seq<Byte>, first: int, size: int, inode: int, ch: seq<int>)
    requires WroteTo(g, d0, d1, own, slot, ext, offset, data, first, size)
    requires DirOf(g, d0, own, inode, ch) && g.Fits(d1)
    ensures TidyDir(g, d0, inode, ch) && TidyDir(g, d1, inode, ch)
    ensures forall j :: 0 <= j < |Entries(g, d0, inode, ch)| ==>
      var e, e' := Entries(g, d0, inode, ch)[j], Entries(g, d1, inode, ch)[j];
      e'.name == e.name && e'.ext == e.ext && e'.attributes == e.attributes
  {
    hide Sound, WroteTo, Stored, Chain, EntryAt, Clusters, DirEntryAt;
    WroteSound(g, d0, d1, own, slot, ext, offset, data, first, size);
    DirOfIsDir(g, d0, own, inode, ch);
    WriteIsDir(g, d0, d1, own, slot, ext, offset, data, first, size, inode, ch);
    var es, es' := Entries(g, d0, inode, ch), Entries(g, d1, inode, ch);
    forall j | 0 <= j < |es|
      ensures es'[j].name == es[j].name && es'[j].ext == es[j].ext && es'[j].attributes == es[j].attributes
    {
      WriteEntryAt(g, d0, d1, own, slot, ext, offset, data, first, size, inode, ch, j);
    }
    SameNamesTidy(es, es');
  }

  lemma WroteSound(g: Geometry, d0: seq<Sector>, d1: seq<Sector>, own: Ownership, slot: Slot,
                   ext: seq<int>, offset: nat, data: seq<Byte>, first: int, size: int)
    requires WroteTo(g, d0, d1, own, slot, ext, offset, data, first, size)
    ensures Sound(g, d0, own) && g.Fits(d0) && slot in own && Placed(g, d0, slot)
  {
  }

  lemma WriteEntryAt(g: Geometry, d0: seq<Sector>, d1: seq<Sector>, own: Ownership, slot: Slot,
                      ext: seq<int>, offset: nat, data: seq<Byte>, first: int, size: int,
                      inode: int, ch: seq<int>, j: nat)
    requires WroteTo(g, d0, d1, own, slot, ext, offset, data, first, size)
    requires DirOf(g, d0, own, inode, ch) && g.Fits(d1) && IsDir(g, d0, inode, ch) && IsDir(g, d1, inode, ch)
    requires j < |Entries(g, d0, inode, ch)|
    ensures var e, e' := Entries(g, d0, inode, ch)[j], Entries(g, d1, inode, ch)[j];
      e'.name == e.name && e'.ext == e.ext && e'.attributes == e.attributes
  {
    hide Sound, WroteTo, Stored, Chain, EntryAt, Clusters;
    WroteSound(g, d0, d1, own, slot, ext, offset, data, first, size);
    SlotAtEntry(g, d0, own, inode, ch, j);
    WriteEntries(g, d0, d1, own, slot, ext, offset, data, first, size, SlotAt(g, inode, ch, j));
  }

  lemma SameNamesTidy(es: seq<DirEntry>, es': seq<DirEntry>)
    requires Shapes(es) && Shapes(es') && |es'| == |es| && TidyEntries(es)
    requires forall j :: 0 <= j < |es| ==> es'[j].name == es[j].name
    ensures TidyEntries(es')
  {
    forall j, k | 0 <= j < k < |es'| && es'[j].IsEnd() ensures es'[k].IsEnd() {
      assert es[j].IsEnd() && es[k].IsEnd();
    }
  }

  lemma WriteIsDir(g: Geometry, d0: seq<Sector>, d1: seq<Sector>, own: Ownership, slot: Slot,
                   ext: seq<int>, offset: nat, data: seq<Byte>, first: int, size: int, inode: int, ch: seq<int>)
    requires WroteTo(g, d0, d1, own, slot, ext, offset, data, first, size)
    requires DirOf(g, d0, own, inode, ch) && g.Fits(d1)
    ensures IsDir(g, d1, inode, ch)
  {
    if inode != 0 {
      var s :| DirNamed(g, d0, own, s, inode, ch);
      WriteChains(g, d0, d1, own, slot, ext, offset, data, first, size, s);
      assert SlotOk(g, d0, own, s);
    }
  }

  lemma WriteTidy(g: Geometry, d0: seq<Sector>, d1: seq<Sector>, own: Ownership, slot: Slot,
                  ext: seq<int>, offset: nat, data: seq<Byte>, first: int, size: int)
    requires WroteTo(g, d0, d1, own, slot, ext, offset, data, first, size) && g.Fits(d1)
    ensures Tidy(g, d1, Grew(own, slot, ext))
  {
    var own' := Grew(own, slot, ext);
    WriteDir(g, d0, d1, own, slot, ext, offset, data, first, size, 0, []);
    forall s | s in own' && Placed(g, d1, s) && EntryOf(g, d1, s).IsDirectory()
      ensures TidyDir(g, d1, EntryOf(g, d1, s).firstCluster, own'[s])
    {
      assert SlotOk(g, d0, own, s);
      WriteEntries(g, d0, d1, own, slot, ext, offset, data, first, size, s);
      OwnedDir(g, d0, own, s);
      WriteDir(g, d0, d1, own, slot, ext, offset, data, first, size, EntryOf(g, d0, s).firstCluster, own[s]);
    }
  }

  lemma WriteLeads(g: Geometry, d0: seq<Sector>, d1: seq<Sector>, own: Ownership, slot: Slot,
                   ext: seq<int>, offset: nat, data: seq<Byte>, first: int, size: int, inode: int)
    requires WroteTo(g, d0, d1, own, slot, ext, offset, data, first, size) && LeadsToDir(g, d0, own, inode)
    ensures LeadsToDir(g, d1, Grew(own, slot, ext), inode)
  {
    hide Sound, Stored;
    var ch :| DirOf(g, d0, own, inode, ch);
    if inode != 0 {
      var s :| DirNamed(g, d0, own, s, inode, ch);
      SlotOfOwned(g, d0, own, s);
      WriteEntries(g, d0, d1, own, slot, ext, offset, data, first, size, s);
      assert DirNamed(g, d1, Grew(own, slot, ext), s, inode, ch);
    }
    assert DirOf(g, d1, Grew(own, slot, ext), inode, ch);
  }

  lemma SlotOfOwned(g: Geometry, disk: seq<Sector>, own: Ownership, s: Slot)
    requires Sound(g, disk, own) && s in own
    ensures Placed(g, disk, s) && DirLba(g, disk, own, s.lba)
  {
    assert SlotOk(g, disk, own, s);
  }

  lemma WriteDots(g: Geometry, d0: seq<Sector>, d1: seq<Sector>, own: Ownership, slot: Slot,
                  ext: seq<int>, offset: nat, data: seq<Byte>, first: int, size: int)
    requires WroteTo(g, d0, d1, own, slot, ext, offset, data, first, size)
    ensures DotsLead(g, d1, Grew(own, slot, ext))
  {
    hide Stored;
    var own' := Grew(own, slot, ext);
    forall s | Placed(g, d1, s) && DirLba(g, d1, own', s.lba) && Dotted(EntryOf(g, d1, s))
      ensures EntryOf(g, d1, s).IsDirectory() && LeadsToDir(g, d1, own', EntryOf(g, d1, s).firstCluster)
    {
      WriteDotAt(g, d0, d1, own, slot, ext, offset, data, first, size, s);
    }
  }

  lemma WriteDotAt(g: Geometry, d0: seq<Sector>, d1: seq<Sector>, own: Ownership, slot: Slot,
                   ext: seq<int>, offset: nat, data: seq<Byte>, first: int, size: int, s: Slot)
    requires WroteTo(g, d0, d1, own, slot, ext, offset, data, first, size)
    requires Placed(g, d1, s) && DirLba(g, d1, Grew(own, slot, ext), s.lba) && Dotted(EntryOf(g, d1, s))
    ensures EntryOf(g, d1, s).IsDirectory()
    ensures LeadsToDir(g, d1, Grew(own, slot, ext), EntryOf(g, d1, s).firstCluster)
  {
    hide Stored, LeadsToDir, DirLba;
    WriteDirLba(g, d0, d1, own, slot, ext, offset, data, first, size, s.lba);
    SameSize(g, d0, d1, own, slot, ext, offset, data, first, size);
    WriteEntries(g, d0, d1, own, slot, ext, offset, data, first, size, s);
    assert SlotOk(g, d0, own, slot);
    WriteLeads(g, d0, d1, own, slot, ext, offset, data, first, size, EntryOf(g, d0, s).firstCluster);
  }

  lemma SameSize(g: Geometry, d0: seq<Sector>, d1: seq<Sector>, own: Ownership, slot: Slot,
                 ext: seq<int>, offset: nat, data: seq<Byte>, first: int, size: int)
    requires WroteTo(g, d0, d1, own, slot, ext, offset, data, first, size)
    ensures |d1| == |d0|
  {
  }

  /** The volume stays sound, even when the grown chain does not reach the recorded size. */
  lemma WriteKeeps(g: Geometry, d0: seq<Sector>, d1: seq<Sector>, own: Ownership, slot: Slot,
                   ext: seq<int>, offset: nat, data: seq<Byte>, first: int, size: int)
    requires WroteTo(g, d0, d1, own, slot, ext, offset, data, first, size)
    ensures Sound(g, d1, Grew(own, slot, ext))
  {
    forall s | s in own ensures g.Fits(d1) && SlotOk(g, d1, Grew(own, slot, ext), s) {
      WriteSlot(g, d0, d1, own, slot, ext, offset, data, first, size, s);
    }
    WriteSlot(g, d0, d1, own, slot, ext, offset, data, first, size, slot);
    WriteDisjoint(g, d0, d1, own, slot, ext, offset, data, first, size);
    WriteComplete(g, d0, d1, own, slot, ext, offset, data, first, size);
    WriteTidy(g, d0, d1, own, slot, ext, offset, data, first, size);
    WriteDots(g, d0, d1, own, slot, ext, offset, data, first, size);
  }

  /** The same clusters are accounted for: what is no longer free is owned. */
  lemma WriteAccounts(g: Geometry, d0: seq<Sector>, d1: seq<Sector>, own: Ownership, slot: Slot,
                      ext: seq<int>, offset: nat, data: seq<Byte>, first: int, size: int)
    requires WroteTo(g, d0, d1, own, slot, ext, offset, data, first, size) && g.Fits(d1)
    ensures Accounted(g, d1, Grew(own, slot, ext)) == Accounted(g, d0, own)
  {
    var own' := Grew(own, slot, ext);
    forall c ensures c in Owned(own') <==> c in Owned(own) || c in ext {
      OwnedGrows(own, slot, ext, c);
    }
    assert forall c :: c in Elements(ext) <==> c in ext;
  }

  lemma OwnedGrows(own: Ownership, slot: Slot, ext: seq<int>, c: int)
    requires slot in own
    ensures c in Owned(Grew(own, slot, ext)) <==> c in Owned(own) || c in ext
  {
    var own' := Grew(own, slot, ext);
    if c in Owned(own') {
      var s :| s in own' && c in own'[s];
    }
    if c in Owned(own) {
      var s :| s in own && c in own[s];
      assert c in own'[s];
    }
    if c in ext {
      assert c in own'[slot];
    }
  }
}
