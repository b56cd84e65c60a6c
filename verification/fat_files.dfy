/** Files on a sound volume: what reading and writing one does to it and to the others. */
module FatFiles {
  import opened Collections
  import opened Bytes
  import opened CString
  import opened FatLayout
  import opened FatTable
  import opened FatChain
  import opened FatData
  import opened FatRead
  import opened FatEntryCodec
  import opened FatNames
  import opened FatWrite
  import opened FatDir
  import opened FatVolume
  import opened FatWriteKeeps
  import opened FatCreate
  import opened FatCreateKeeps
  import opened VfsNode
  import opened FatFs

  // ---- Files ----

  /** Cluster c is marked as the end of a chain, but no live entry owns it. */
  ghost predicate Stray(g: Geometry, disk: seq<Sector>, own: Ownership, c: int)
    requires g.Fits(disk)
  {
    g.IsCluster(c) && c !in Owned(own) && Fat(g, disk)[c] == 0xFFFF
  }

  /** What a handle may hold besides the chain of its file: nothing, or for an empty file a
      stray cluster, which its first write took before it ran out of memory. */
  ghost predicate Holds(g: Geometry, disk: seq<Sector>, own: Ownership, s: Slot, held: seq<int>) {
    s in own && (held != [] ==> |held| == 1 && own[s] == [] && g.Fits(disk) && Stray(g, disk, own, held[0]))
  }

  /** `node` is an open handle of the file entry at `s`, holding `held`. */
  ghost predicate Handle(g: Geometry, disk: seq<Sector>, own: Ownership, s: Slot, held: seq<int>, node: Node)
    reads node
  {
    && Holds(g, disk, own, s, held) && Placed(g, disk, s) && !EntryOf(g, disk, s).IsDirectory()
    && node.inode == (if held == [] then EntryOf(g, disk, s).firstCluster else held[0])
    && node.size == EntryOf(g, disk, s).fileSize && node.dirLba == s.lba && node.dirIndex == s.index
  }

  /** The bytes of the live file whose entry is at `s`, as far as its clusters go. */
  ghost function FileAt(g: Geometry, disk: seq<Sector>, own: Ownership, s: Slot): (data: seq<Byte>)
    requires LiveFile(g, disk, own, s)
    ensures |data| == Min(EntryOf(g, disk, s).fileSize, Times(|own[s]|, g.ClusterBytes()))
    ensures IsFile(g, disk, own, s) ==> |data| == EntryOf(g, disk, s).fileSize
  {
    FileChain(g, disk, own, s);
    FileBytes(g, disk, own[s], EntryOf(g, disk, s).fileSize)
  }

  lemma FileChain(g: Geometry, disk: seq<Sector>, own: Ownership, s: Slot)
    requires LiveFile(g, disk, own, s)
    ensures Clusters(g, own[s])
    ensures Chain(Fat(g, disk), EntryOf(g, disk, s).firstCluster, own[s])
    ensures own[s] == [] ==> EntryOf(g, disk, s).firstCluster < 2
  {
    assert SlotOk(g, disk, own, s);
    ChainClusters(g, Fat(g, disk), EntryOf(g, disk, s).firstCluster, own[s]);
  }

  /** The directory entry of a file lies in no cluster that the file uses or could get. */
  lemma FileEntrySafe(g: Geometry, disk: seq<Sector>, own: Ownership, s: Slot)
    requires LiveFile(g, disk, own, s)
    ensures EntrySafe(g, Fat(g, disk), own[s], s.lba)
  {
    OwnedIsOwner(g, disk, own, s);
    forall c | g.InCluster(s.lba, c) ensures c !in own[s] && c !in FreeSet(Fat(g, disk)) {
      DirSectorApart(g, disk, own, s.lba, s, c);
    }
  }

  /** What a handle of a live file promises to a write. */
  lemma HandleReady(g: Geometry, disk: seq<Sector>, own: Ownership, s: Slot, held: seq<int>, node: Node)
    requires LiveFile(g, disk, own, s) && Handle(g, disk, own, s, held, node)
    ensures g.Fits(disk) && s in own && Chain(Fat(g, disk), node.inode, own[s] + held)
    ensures own[s] + held == [] ==> 0 <= node.inode < 2
    ensures 0 <= node.size < 0x1_0000_0000 && g.RootLba() <= node.dirLba < |disk| && 0 <= node.dirIndex < 16
    ensures EntrySafe(g, Fat(g, disk), own[s] + held, node.dirLba)
  {
    FileChain(g, disk, own, s);
    FileEntrySafe(g, disk, own, s);
    if held == [] {
      assert own[s] + held == own[s];
    } else {
      assert own[s] + held == held;
      assert LinkAt(Fat(g, disk), held, 0);
      OwnedIsOwner(g, disk, own, s);
      UnownedOffDirs(g, disk, own, held, s.lba);
      StrayEntrySafe(g, disk, held, s.lba);
    }
  }

  lemma StrayEntrySafe(g: Geometry, disk: seq<Sector>, held: seq<int>, lba: int)
    requires g.Fits(disk) && !OnChain(g, lba, held) && EntrySafe(g, Fat(g, disk), [], lba)
    ensures EntrySafe(g, Fat(g, disk), held, lba)
  {
    assert forall i :: 0 <= i < |held| ==> !g.InCluster(lba, held[i]);
  }

  /** The file at `t` is a file still, with the same bytes. */
  ghost predicate FileKept(g: Geometry, d0: seq<Sector>, d1: seq<Sector>, own: Ownership, own': Ownership, t: Slot) {
    LiveFile(g, d0, own, t) ==>
      LiveFile(g, d1, own', t) && FileAt(g, d1, own', t) == FileAt(g, d0, own, t)
      && (IsFile(g, d1, own', t) <==> IsFile(g, d0, own, t))
  }

  ghost predicate OthersKept(g: Geometry, d0: seq<Sector>, d1: seq<Sector>, own: Ownership, own': Ownership, s: Slot) {
    forall t :: t != s ==> FileKept(g, d0, d1, own, own', t)
  }

  lemma SameFile(g: Geometry, d0: seq<Sector>, d1: seq<Sector>, own: Ownership, own': Ownership, t: Slot)
    requires LiveFile(g, d0, own, t) && Sound(g, d1, own') && t in own' && own'[t] == own[t]
    requires Placed(g, d1, t) && EntryOf(g, d1, t) == EntryOf(g, d0, t)
    requires Clusters(g, own[t]) && Content(g, d1, own[t]) == Content(g, d0, own[t])
    ensures FileKept(g, d0, d1, own, own', t)
  {
    FileChain(g, d0, own, t);
  }

  /** A change confined to a cluster that nobody owns is seen by no file. */
  lemma UnownedFile(g: Geometry, d0: seq<Sector>, d1: seq<Sector>, own: Ownership, c: int, t: Slot)
    requires Sound(g, d0, own) && c !in Owned(own) && OnlyCluster(g, d0, d1, c)
    ensures FileKept(g, d0, d1, own, own, t)
  {
    UnownedKeeps(g, d0, d1, own, c);
    if LiveFile(g, d0, own, t) {
      OwnedIsOwner(g, d0, own, t);
      UnownedEntry(g, d0, d1, own, c, t);
      FileChain(g, d0, own, t);
      assert forall x :: x in own[t] ==> x in Owned(own);
      OffChainSame(g, d0, d1, [c], own[t]);
      SameFile(g, d0, d1, own, own, t);
    }
  }

  /** A file that was not there before is found where its entry has been put. */
  lemma CreatedAt(g: Geometry, d0: seq<Sector>, d1: seq<Sector>, own: Ownership, inode: int, ch: seq<int>,
                  name: seq<Byte>, s: Slot)
    requires Creates(g, d0, d1, own, inode, ch, name, false, s, []) && Plain(name)
    requires !Found(Entries(g, d0, inode, ch), name) && IsDir(g, d1, inode, ch)
    requires Found(Entries(g, d1, inode, ch), name)
    ensures name[0] != DELETED && g.sectorsPerCluster > 0
    ensures var k := Scan(Entries(g, d1, inode, ch), name);
      (inode != 0 ==> k / 16 / g.sectorsPerCluster < |ch|) && s == SlotAt(g, inode, ch, k)
  {
    hide Sound, Text83, Field, Accepted, Stops, FirstFree, Plain, Scan;
    var e, es := EntryFor(name, []), Entries(g, d0, inode, ch);
    MadeDir(g, d0, d1, own, inode, ch, s, e, [], inode, ch);
    CreateFinds(es, name, e);
    assert FreeSlotOf(g, d0, own, inode, ch, s);
  }

  /** It is empty. */
  lemma CreatedEmpty(g: Geometry, d0: seq<Sector>, d1: seq<Sector>, own: Ownership, inode: int, ch: seq<int>,
                     name: seq<Byte>, s: Slot)
    requires Creates(g, d0, d1, own, inode, ch, name, false, s, []) && Plain(name) && name[0] != DELETED
    ensures var own' := OwnedAfter(own, name, s, []);
      s in own' && own'[s] == [] && IsFile(g, d1, own', s) && FileAt(g, d1, own', s) == []
      && Placed(g, d1, s) && EntryOf(g, d1, s).fileSize == 0 && !EntryOf(g, d1, s).IsDirectory()
  {
    hide Sound, Field, Accepted, FirstFree, Plain, FreeSlotOf;
    var e := EntryFor(name, []);
    CreatesKeeps(g, d0, d1, own, inode, ch, name, false, s, []);
    FieldStart(name);
    MadeParts(g, d0, d1, own, inode, ch, s, e, []);
    NewOwner(e, []);
    MadeEntries(g, d0, d1, own, inode, ch, s, e, [], s);
  }

  /** The node that a create returns is a handle of the new, empty file. */
  lemma CreatedHandle(g: Geometry, d0: seq<Sector>, d1: seq<Sector>, own: Ownership, inode: int, ch: seq<int>,
                      name: seq<Byte>, s: Slot, node: Node)
    requires Creates(g, d0, d1, own, inode, ch, name, false, s, []) && Plain(name)
    requires !Found(Entries(g, d0, inode, ch), name) && IsDir(g, d1, inode, ch)
    requires Found(Entries(g, d1, inode, ch), name)
    requires NodeFor(g, d1, inode, ch, Scan(Entries(g, d1, inode, ch), name), node)
    ensures var own' := OwnedAfter(own, name, s, []);
      Handle(g, d1, own', s, [], node) && own'[s] == [] && IsFile(g, d1, own', s) && FileAt(g, d1, own', s) == []
  {
    hide Creates, Sound, IsFile, OwnedAfter, Plain, Scan, EntryAt, FileAt, Text, Text83, Accepted;
    CreatedAt(g, d0, d1, own, inode, ch, name, s);
    CreatedEmpty(g, d0, d1, own, inode, ch, name, s);
  }

  // ---- Write ----

  /** `after` has `data` at `offset`, and equals `before` at every old position that was not written. */
  ghost predicate Rewritten(before: seq<Byte>, offset: nat, data: seq<Byte>, after: seq<Byte>) {
    && |after| >= Max(|before|, offset + |data|)
    && after[offset..offset + |data|] == data
    && forall p :: 0 <= p < |before| && !(offset <= p < offset + |data|) ==> after[p] == before[p]
  }

  /** Then `after` is longer than `before` only if the data reach past its end. */
  ghost predicate Patched(before: seq<Byte>, offset: nat, data: seq<Byte>, after: seq<Byte>) {
    Rewritten(before, offset, data, after) && |after| == Max(|before|, offset + |data|)
  }

  /** For a write that starts inside the file this is the plain splice. */
  lemma PatchedSplice(before: seq<Byte>, offset: nat, data: seq<Byte>, after: seq<Byte>)
    requires offset <= |before| && Patched(before, offset, data, after)
    ensures after == before[..offset] + data + (if offset + |data| <= |before| then before[offset + |data|..] else [])
  {
    assert after == after[..offset] + after[offset..offset + |data|] + after[offset + |data|..];
  }

  /** How far a file can reach: its own clusters and all the free ones. */
  ghost function Room(g: Geometry, disk: seq<Sector>, ch: seq<int>): nat
    requires g.Fits(disk)
  {
    Times(|ch| + |FreeSet(Fat(g, disk))|, g.ClusterBytes())
  }

  /** A write of `request` bytes that got as far as its loop: `data` is the prefix that was
      written, short only because no cluster is free any more. */
  ghost predicate WriteDone(g: Geometry, d0: seq<Sector>, d1: seq<Sector>, own: Ownership, s: Slot, held: seq<int>,
                            ext: seq<int>, offset: nat, data: seq<Byte>, request: nat, first: int, size: int)
  {
    && LiveFile(g, d0, own, s) && Holds(g, d0, own, s, held)
    && 0 <= first < 0x1_0000 && 0 <= size < 0x1_0000_0000
    && Stored(g, d0, d1, own[s] + held, ext, offset, data, s.lba, s.index, first, size)
    && own[s] + held + ext != []
    && size == Max(EntryOf(g, d0, s).fileSize, offset + |data|)
    && 0 < request && |data| <= request
    && g.Fits(d1) && (|data| < request ==> FreeSet(Fat(g, d1)) == {})
  }

  /** What such a write comes to. The volume stays sound, every other file keeps its bytes
      and no cluster is lost; one that the handle held is found again. If the write started
      where the file's clusters could reach, its bytes are rewritten; otherwise nothing was
      stored and the old bytes are still there. If its clusters reached its size, they still
      do exactly when the write started so, and then the file is patched. */
  ghost predicate FileWritten(g: Geometry, d0: seq<Sector>, d1: seq<Sector>, own: Ownership, own': Ownership,
                              s: Slot, held: seq<int>, offset: nat, data: seq<Byte>)
    requires LiveFile(g, d0, own, s)
  {
    && LiveFile(g, d1, own', s) && OnlyGrew(own, own', s) && OthersKept(g, d0, d1, own, own', s)
    && Accounted(g, d1, own') == Accounted(g, d0, own) + Elements(held)
    && (IsFile(g, d0, own, s) ==> (IsFile(g, d1, own', s) <==> offset <= Room(g, d0, own[s] + held)))
    && (WellFormed(g, d0, own) ==> (WellFormed(g, d1, own') <==> offset <= Room(g, d0, own[s] + held)))
    && (if offset <= Room(g, d0, own[s] + held)
        then Rewritten(FileAt(g, d0, own, s), offset, data, FileAt(g, d1, own', s))
        else FileAt(g, d0, own, s) <= FileAt(g, d1, own', s))
    && (IsFile(g, d0, own, s) && IsFile(g, d1, own', s) ==>
          Patched(FileAt(g, d0, own, s), offset, data, FileAt(g, d1, own', s)))
  }

  ghost predicate OnlyGrew(own: Ownership, own': Ownership, s: Slot)
    requires s in own
  {
    own'.Keys == own.Keys && (forall t :: t in own && t != s ==> own'[t] == own[t]) && own[s] <= own'[s]
  }

  lemma GrewOnly(own: Ownership, s: Slot, ext: seq<int>)
    requires s in own
    ensures OnlyGrew(own, Grew(own, s, ext), s)
  {
  }

  /** What a write stores, as facts about the chain and its content. */
  lemma WroteContent(g: Geometry, d0: seq<Sector>, d1: seq<Sector>, own: Ownership, slot: Slot,
                     ext: seq<int>, offset: nat, data: seq<Byte>, first: int, size: int)
    requires WroteTo(g, d0, d1, own, slot, ext, offset, data, first, size)
    ensures g.Fits(d0) && g.Fits(d1) && slot in own && Clusters(g, own[slot] + ext)
    ensures Chain(Fat(g, d1), first, own[slot] + ext) && Grown(Fat(g, d0), Fat(g, d1), own[slot], ext)
    ensures data != [] ==> offset + |data| <= |Content(g, d0, own[slot] + ext)|
    ensures Content(g, d1, own[slot] + ext) == Splice(Content(g, d0, own[slot] + ext), offset, data)
  {
  }

  lemma WroteInside(g: Geometry, d0: seq<Sector>, d1: seq<Sector>, own: Ownership, slot: Slot,
                    ext: seq<int>, offset: nat, data: seq<Byte>, first: int, size: int)
    requires WroteTo(g, d0, d1, own, slot, ext, offset, data, first, size)
    requires LiveFile(g, d0, own, slot) && LiveFile(g, d1, Grew(own, slot, ext), slot)
    requires size == Max(EntryOf(g, d0, slot).fileSize, offset + |data|)
    requires offset + |data| <= Times(|own[slot] + ext|, g.ClusterBytes())
    ensures Rewritten(FileAt(g, d0, own, slot), offset, data, FileAt(g, d1, Grew(own, slot, ext), slot))
  {
    hide Sound, WroteTo, Splice, Rewritten, Fat, Clusters, EntryAt, Geometry.Fits, Chain, Grown;
    WrittenEntry(g, d0, d1, own, slot, ext, offset, data, first, size);
    WroteContent(g, d0, d1, own, slot, ext, offset, data, first, size);
    FileChain(g, d0, own, slot);
    ContentPrefix(g, d0, own[slot], ext);
    MulMono(|own[slot]|, |own[slot] + ext|, g.ClusterBytes());
    SplicedFile(Content(g, d0, own[slot]), Content(g, d0, own[slot] + ext), Content(g, d1, own[slot] + ext),
                |FileAt(g, d0, own, slot)|, offset, data, |FileAt(g, d1, Grew(own, slot, ext), slot)|);
  }

  /** Bytes are stored inside the clusters only, so a write that ends behind them stores none. */
  lemma WroteNothing(g: Geometry, d0: seq<Sector>, d1: seq<Sector>, own: Ownership, slot: Slot,
                     ext: seq<int>, offset: nat, data: seq<Byte>, first: int, size: int)
    requires WroteTo(g, d0, d1, own, slot, ext, offset, data, first, size)
    requires LiveFile(g, d0, own, slot) && LiveFile(g, d1, Grew(own, slot, ext), slot)
    requires size == Max(EntryOf(g, d0, slot).fileSize, offset + |data|)
    requires offset + |data| > Times(|own[slot] + ext|, g.ClusterBytes())
    ensures FileAt(g, d0, own, slot) <= FileAt(g, d1, Grew(own, slot, ext), slot)
  {
    hide Sound, WroteTo, Patched, Fat, Clusters, EntryAt, Geometry.Fits, Chain, Grown;
    WrittenEntry(g, d0, d1, own, slot, ext, offset, data, first, size);
    WroteContent(g, d0, d1, own, slot, ext, offset, data, first, size);
    FileChain(g, d0, own, slot);
    ContentPrefix(g, d0, own[slot], ext);
    MulMono(|own[slot]|, |own[slot] + ext|, g.ClusterBytes());
    SpliceNone(Content(g, d0, own[slot] + ext), offset);
  }

  lemma SplicedFile(c0: seq<Byte>, c: seq<Byte>, c1: seq<Byte>, size: nat, offset: nat, data: seq<Byte>, size': nat)
    requires c0 <= c && size <= |c0| && c1 == Splice(c, offset, data) && offset + |data| <= |c|
    requires Max(size, offset + |data|) <= size' <= |c1|
    ensures Rewritten(c0[..size], offset, data, c1[..size'])
  {
    hide Splice;
    var after := c1[..size'];
    forall i | 0 <= i < |after| ensures after[i] == if offset <= i < offset + |data| then data[i - offset] else c[i] {
      SpliceIndex(c, offset, data, i);
    }
    assert after[offset..offset + |data|] == data;
  }

  /** The entry of the written file, whose chain has grown. */
  lemma WrittenEntry(g: Geometry, d0: seq<Sector>, d1: seq<Sector>, own: Ownership, slot: Slot,
                     ext: seq<int>, offset: nat, data: seq<Byte>, first: int, size: int)
    requires WroteTo(g, d0, d1, own, slot, ext, offset, data, first, size)
    ensures LiveFile(g, d1, Grew(own, slot, ext), slot)
    ensures EntryOf(g, d1, slot) == EntryOf(g, d0, slot).(firstCluster := first, fileSize := size)
  {
    WriteKeeps(g, d0, d1, own, slot, ext, offset, data, first, size);
    OwnedIsOwner(g, d0, own, slot);
    WriteEntries(g, d0, d1, own, slot, ext, offset, data, first, size, slot);
  }

  lemma WriteKeepsOther(g: Geometry, d0: seq<Sector>, d1: seq<Sector>, own: Ownership, slot: Slot,
                        ext: seq<int>, offset: nat, data: seq<Byte>, first: int, size: int, t: Slot)
    requires WroteTo(g, d0, d1, own, slot, ext, offset, data, first, size) && t != slot
    ensures FileKept(g, d0, d1, own, Grew(own, slot, ext), t)
  {
    if LiveFile(g, d0, own, t) {
      WriteKeeps(g, d0, d1, own, slot, ext, offset, data, first, size);
      OwnedIsOwner(g, d0, own, t);
      WriteEntries(g, d0, d1, own, slot, ext, offset, data, first, size, t);
      WriteKeepsFile(g, d0, d1, own, slot, ext, offset, data, first, size, t);
      SameFile(g, d0, d1, own, Grew(own, slot, ext), t);
    }
  }

  /** Coverage of the other files depends on their own entries alone. */
  lemma WriteCoversOthers(g: Geometry, d0: seq<Sector>, d1: seq<Sector>, own: Ownership, slot: Slot,
                          ext: seq<int>, offset: nat, data: seq<Byte>, first: int, size: int)
    requires WroteTo(g, d0, d1, own, slot, ext, offset, data, first, size) && WellFormed(g, d0, own)
    ensures WellFormed(g, d1, Grew(own, slot, ext)) <==> IsFile(g, d1, Grew(own, slot, ext), slot)
  {
    hide Sound, WroteTo, Stored;
    WroteSound(g, d0, d1, own, slot, ext, offset, data, first, size);
    var own' := Grew(own, slot, ext);
    WrittenEntry(g, d0, d1, own, slot, ext, offset, data, first, size);
    forall t | t != slot && LiveFile(g, d1, own', t) ensures IsFile(g, d1, own', t) {
      OwnedIsOwner(g, d0, own, t);
      WriteEntries(g, d0, d1, own, slot, ext, offset, data, first, size, t);
      assert LiveFile(g, d0, own, t);
    }
  }

  /** The clusters taken are as many as are missing from the free ones. */
  lemma GrownCount(fat0: seq<int>, fat1: seq<int>, first: int, ch: seq<int>, ext: seq<int>)
    requires Grown(fat0, fat1, ch, ext) && Chain(fat1, first, ch + ext) && |fat1| <= EOF_LO
    ensures |ext| + |FreeSet(fat1)| == |FreeSet(fat0)|
  {
    ChainDistinct(fat1, first, ch + ext);
    assert forall i :: 0 <= i < |ext| ==> (ch + ext)[|ch| + i] == ext[i];
    DistinctCount(ext);
    assert FreeSet(fat0) == FreeSet(fat1) + Elements(ext);
  }

  /** A write through a handle that holds nothing of its own. */
  ghost predicate PlainWrite(g: Geometry, d0: seq<Sector>, d1: seq<Sector>, own: Ownership, s: Slot,
                             ext: seq<int>, offset: nat, data: seq<Byte>, request: nat, first: int, size: int)
  {
    && WroteTo(g, d0, d1, own, s, ext, offset, data, first, size)
    && size == Max(EntryOf(g, d0, s).fileSize, offset + |data|)
    && 0 < request && |data| <= request
    && g.Fits(d1) && (|data| < request ==> FreeSet(Fat(g, d1)) == {})
  }

  /** A write ends inside its clusters exactly when it started where they could reach. */
  lemma WriteReaches(g: Geometry, d0: seq<Sector>, d1: seq<Sector>, own: Ownership, s: Slot,
                     ext: seq<int>, offset: nat, data: seq<Byte>, request: nat, first: int, size: int)
    requires PlainWrite(g, d0, d1, own, s, ext, offset, data, request, first, size)
    ensures offset + |data| <= Times(|own[s] + ext|, g.ClusterBytes()) <==> offset <= Room(g, d0, own[s])
    ensures offset > Room(g, d0, own[s]) ==> FreeSet(Fat(g, d1)) == {}
  {
    hide Sound, WroteTo, Grown, Chain, FreeSet;
    WroteContent(g, d0, d1, own, s, ext, offset, data, first, size);
    GrownCount(Fat(g, d0), Fat(g, d1), first, own[s], ext);
    MulMono(|own[s] + ext|, |own[s]| + |FreeSet(Fat(g, d0))|, g.ClusterBytes());
  }

  /** The bytes of the file after the write. */
  lemma PlainBytes(g: Geometry, d0: seq<Sector>, d1: seq<Sector>, own: Ownership, s: Slot,
                   ext: seq<int>, offset: nat, data: seq<Byte>, request: nat, first: int, size: int)
    requires PlainWrite(g, d0, d1, own, s, ext, offset, data, request, first, size)
    requires LiveFile(g, d0, own, s) && LiveFile(g, d1, Grew(own, s, ext), s)
    ensures if offset <= Room(g, d0, own[s])
            then Rewritten(FileAt(g, d0, own, s), offset, data, FileAt(g, d1, Grew(own, s, ext), s))
            else FileAt(g, d0, own, s) <= FileAt(g, d1, Grew(own, s, ext), s)
  {
    hide Sound, WroteTo, Rewritten, FileAt, Room, Times, Geometry.Fits, Geometry.ClusterBytes, EntryAt, Placed, Fat;
    hide FreeSet;
    hide Clusters, Chain, Grown, Content, Splice;
    WroteContent(g, d0, d1, own, s, ext, offset, data, first, size);
    WriteReaches(g, d0, d1, own, s, ext, offset, data, request, first, size);
    if offset <= Room(g, d0, own[s]) {
      WroteInside(g, d0, d1, own, s, ext, offset, data, first, size);
    } else {
      WroteNothing(g, d0, d1, own, s, ext, offset, data, first, size);
    }
  }

  lemma PlainFinished(g: Geometry, d0: seq<Sector>, d1: seq<Sector>, own: Ownership, s: Slot,
                      ext: seq<int>, offset: nat, data: seq<Byte>, request: nat, first: int, size: int)
    requires PlainWrite(g, d0, d1, own, s, ext, offset, data, request, first, size)
    ensures FileWritten(g, d0, d1, own, Grew(own, s, ext), s, [], offset, data)
  {
    hide Sound, Stored, Rewritten, FileKept;
    WrittenEntry(g, d0, d1, own, s, ext, offset, data, first, size);
    forall t | t != s ensures FileKept(g, d0, d1, own, Grew(own, s, ext), t) {
      WriteKeepsOther(g, d0, d1, own, s, ext, offset, data, first, size, t);
    }
    WriteAccounts(g, d0, d1, own, s, ext, offset, data, first, size);
    GrewOnly(own, s, ext);
    assert own[s] + [] == own[s] && Elements<int>([]) == {};
    WriteReaches(g, d0, d1, own, s, ext, offset, data, request, first, size);
    MulMono(|own[s]|, |own[s] + ext|, g.ClusterBytes());
    PlainBytes(g, d0, d1, own, s, ext, offset, data, request, first, size);
    if WellFormed(g, d0, own) { WriteCoversOthers(g, d0, d1, own, s, ext, offset, data, first, size); }
  }

  // ---- A write that runs out of kernel memory, and one that follows it ----

  /** Cluster c has been taken from the free ones and marked as the end of a chain. */
  ghost predicate TookCluster(g: Geometry, d0: seq<Sector>, d1: seq<Sector>, c: int) {
    && g.Fits(d0) && g.Fits(d1) && SameOutsideFat(g, d0, d1) && c in FreeSet(Fat(g, d0))
    && Fat(g, d1) == Fat(g, d0)[c := 0xFFFF]
    && (CopiesAgree(g, d0) ==> CopiesAgree(g, d1))
  }

  /** The cluster is stray afterwards; nothing else is lost and every file keeps its bytes. */
  lemma LostCluster(g: Geometry, d0: seq<Sector>, d1: seq<Sector>, own: Ownership, c: int)
    requires Sound(g, d0, own) && TookCluster(g, d0, d1, c)
    ensures Sound(g, d1, own) && (WellFormed(g, d0, own) ==> WellFormed(g, d1, own))
    ensures forall t :: FileKept(g, d0, d1, own, own, t)
    ensures c in Accounted(g, d0, own) && Accounted(g, d1, own) == Accounted(g, d0, own) - {c}
    ensures Stray(g, d1, own, c)
  {
    FreeNotOwned(g, d0, own);
    UnownedKeeps(g, d0, d1, own, c);
    if WellFormed(g, d0, own) { UnownedCovers(g, d0, d1, own, c); }
    forall t ensures FileKept(g, d0, d1, own, own, t) { UnownedFile(g, d0, d1, own, c, t); }
    assert FreeSet(Fat(g, d1)) == FreeSet(Fat(g, d0)) - {c};
  }

  /** The disk on which a stray cluster would still be free. */
  lemma BeforeTaking(g: Geometry, d: seq<Sector>, own: Ownership, c: int) returns (d0: seq<Sector>)
    requires g.Fits(d) && Stray(g, d, own, c)
    ensures TookCluster(g, d0, d, c) && Fat(g, d0) == Fat(g, d)[c := 0]
  {
    FatRegion(g, d);
    var at := CopyLba(g, 0) + c / 256;
    var sector: Sector := PutU16(d[at], c % 256 * 2, 0);
    StoreInCopy(g, d, 0, c, 0, sector);
    d0 := d[at := sector];
    if g.fatCount > 1 {
      var other := CopyLba(g, 1) + c / 256;
      var sector': Sector := PutU16(d0[other], c % 256 * 2, 1);
      StoreInCopy(g, d0, 1, c, 1, sector');
      d0 := d0[other := sector'];
      assert Table(g, d0, 1)[c] != Table(g, d0, 0)[c];
    }
  }

  /** Writing through a handle that holds a cluster links it after all: the call that took
      it and this one together are one write to the file as it was before both. */
  lemma HeldIsPlain(g: Geometry, d0: seq<Sector>, d: seq<Sector>, d1: seq<Sector>, own: Ownership, s: Slot,
                    c: int, ext: seq<int>, offset: nat, data: seq<Byte>, request: nat, first: int, size: int)
    requires WriteDone(g, d, d1, own, s, [c], ext, offset, data, request, first, size)
    requires TookCluster(g, d0, d, c) && Sound(g, d0, own)
    ensures PlainWrite(g, d0, d1, own, s, [c] + ext, offset, data, request, first, size)
  {
    hide Sound, Content;
    assert own[s] + ([c] + ext) == [c] + ext && own[s] + [c] == [c];
    ContentOutsideFat(g, d0, d, [c] + ext);
    GrownBefore(Fat(g, d0), Fat(g, d), Fat(g, d1), c, ext);
    FatRegion(g, d0);
  }

  lemma GrownBefore(fat0: seq<int>, fat: seq<int>, fat1: seq<int>, c: int, ext: seq<int>)
    requires c in FreeSet(fat0) && fat == fat0[c := 0xFFFF] && Grown(fat, fat1, [c], ext)
    ensures Grown(fat0, fat1, [], [c] + ext)
  {
    assert Elements([c] + ext) == {c} + Elements(ext);
    assert FreeSet(fat) == FreeSet(fat0) - {c};
  }

  /** Freeing a stray cluster in thought changes no file, and gives it to whoever needs it. */
  lemma StrayFreed(g: Geometry, d0: seq<Sector>, d: seq<Sector>, own: Ownership, c: int)
    requires Sound(g, d, own) && Stray(g, d, own, c) && TookCluster(g, d0, d, c)
    ensures Sound(g, d0, own) && (WellFormed(g, d, own) ==> WellFormed(g, d0, own))
    ensures forall t :: FileKept(g, d, d0, own, own, t)
    ensures Accounted(g, d0, own) == Accounted(g, d, own) + {c}
    ensures |FreeSet(Fat(g, d0))| == |FreeSet(Fat(g, d))| + 1
  {
    assert OnlyCluster(g, d, d0, c);
    UnownedKeeps(g, d, d0, own, c);
    if WellFormed(g, d, own) { UnownedCovers(g, d, d0, own, c); }
    forall t ensures FileKept(g, d, d0, own, own, t) { UnownedFile(g, d, d0, own, c, t); }
    assert FreeSet(Fat(g, d0)) == FreeSet(Fat(g, d)) + {c};
  }

  lemma WriteFinished(g: Geometry, d: seq<Sector>, d1: seq<Sector>, own: Ownership, s: Slot, held: seq<int>,
                      ext: seq<int>, offset: nat, data: seq<Byte>, request: nat, first: int, size: int)
    requires WriteDone(g, d, d1, own, s, held, ext, offset, data, request, first, size)
    ensures FileWritten(g, d, d1, own, Grew(own, s, held + ext), s, held, offset, data)
    ensures EntryOf(g, d1, s) == EntryOf(g, d, s).(firstCluster := first, fileSize := size)
  {
    hide Sound, LiveFile, Stored, FileWritten;
    if held == [] {
      NoneHeld(g, d, d1, own, s, ext, offset, data, request, first, size);
      assert held + ext == ext;
    } else {
      assert held == [held[0]];
      OneHeld(g, d, d1, own, s, held[0], ext, offset, data, request, first, size);
    }
  }

  lemma NoneHeld(g: Geometry, d: seq<Sector>, d1: seq<Sector>, own: Ownership, s: Slot,
                 ext: seq<int>, offset: nat, data: seq<Byte>, request: nat, first: int, size: int)
    requires WriteDone(g, d, d1, own, s, [], ext, offset, data, request, first, size)
    ensures FileWritten(g, d, d1, own, Grew(own, s, ext), s, [], offset, data) && Placed(g, d1, s)
    ensures EntryOf(g, d1, s) == EntryOf(g, d, s).(firstCluster := first, fileSize := size)
  {
    hide Sound, Stored, FileWritten;
    assert own[s] + [] == own[s];
    WrittenEntry(g, d, d1, own, s, ext, offset, data, first, size);
    PlainFinished(g, d, d1, own, s, ext, offset, data, request, first, size);
  }

  lemma OneHeld(g: Geometry, d: seq<Sector>, d1: seq<Sector>, own: Ownership, s: Slot, c: int,
                ext: seq<int>, offset: nat, data: seq<Byte>, request: nat, first: int, size: int)
    requires WriteDone(g, d, d1, own, s, [c], ext, offset, data, request, first, size)
    ensures FileWritten(g, d, d1, own, Grew(own, s, [c] + ext), s, [c], offset, data) && Placed(g, d1, s)
    ensures EntryOf(g, d1, s) == EntryOf(g, d, s).(firstCluster := first, fileSize := size)
  {
    hide Sound, Stored, FileWritten, TookCluster, Stray, FileKept, WroteTo;
    var d0 := BeforeTaking(g, d, own, c);
    StrayFreed(g, d0, d, own, c);
    SameEntry(g, d0, d, c, s);
    HeldIsPlain(g, d0, d, d1, own, s, c, ext, offset, data, request, first, size);
    WrittenEntry(g, d0, d1, own, s, [c] + ext, offset, data, first, size);
    PlainFinished(g, d0, d1, own, s, [c] + ext, offset, data, request, first, size);
    FoundAgain(g, d0, d, d1, own, s, c, ext, offset, data);
  }

  /** Entries lie outside the FATs. */
  lemma SameEntry(g: Geometry, d0: seq<Sector>, d1: seq<Sector>, c: int, s: Slot)
    requires TookCluster(g, d0, d1, c) && Placed(g, d1, s)
    ensures Placed(g, d0, s) && EntryOf(g, d0, s) == EntryOf(g, d1, s)
  {
    FatRegion(g, d0);
  }

  /** What the one write does is what the second call does. */
  lemma FoundAgain(g: Geometry, d0: seq<Sector>, d: seq<Sector>, d1: seq<Sector>, own: Ownership, s: Slot,
                   c: int, ext: seq<int>, offset: nat, data: seq<Byte>)
    requires LiveFile(g, d0, own, s) && LiveFile(g, d, own, s) && own[s] == []
    requires EntryOf(g, d0, s) == EntryOf(g, d, s)
    requires FileWritten(g, d0, d1, own, Grew(own, s, [c] + ext), s, [], offset, data)
    requires WellFormed(g, d, own) ==> WellFormed(g, d0, own)
    requires forall t :: FileKept(g, d, d0, own, own, t)
    requires Accounted(g, d0, own) == Accounted(g, d, own) + {c}
    requires |FreeSet(Fat(g, d0))| == |FreeSet(Fat(g, d))| + 1
    ensures FileWritten(g, d, d1, own, Grew(own, s, [c] + ext), s, [c], offset, data)
  {
    hide Sound, LiveFile, WellFormed, FileAt, Patched, Rewritten;
    assert own[s] + [c] == [c] && own[s] + [] == [] && Elements([c]) == {c} && Elements<int>([]) == {};
    var own' := Grew(own, s, [c] + ext);
    forall t | t != s ensures FileKept(g, d, d1, own, own', t) {
      assert FileKept(g, d, d0, own, own, t) && FileKept(g, d0, d1, own, own', t);
    }
    assert FileKept(g, d, d0, own, own, s);
  }

  // ---- The calls ----

  /** What a write of `size` bytes comes to: refused (nothing asked, or no cluster for an
      empty file), out of kernel memory, or done as far as the disk has room. */
  datatype Outcome = Refused | NoMemory | Done

  ghost function WriteOutcome(fat: seq<int>, ch: seq<int>, size: nat, memory: bool): Outcome {
    if size == 0 || (ch == [] && FreeSet(fat) == {}) then Refused else if !memory then NoMemory else Done
  }

  /** fat16_vfs_write on a sound volume, through a handle that may hold a cluster. */
  method WriteFile(v: Volume, node: Node, offset: nat, size: nat, buf: array<Byte>, memory: bool,
                   ghost own: Ownership, ghost s: Slot, ghost held: seq<int>)
    returns (n: int, ghost written: nat, ghost ext: seq<int>)
    requires LiveFile(v.g, v.disk, own, s) && Handle(v.g, v.disk, own, s, held, node)
    requires offset < 0x1_0000_0000 && size < 0x1_0000_0000 && size <= buf.Length
    modifies v, node
    ensures v.g.Fits(v.disk)
    ensures WriteOutcome(Fat(v.g, old(v.disk)), own[s] + held, size, memory) == Refused ==>
      n == (if size == 0 then 0 else -1) && v.disk == old(v.disk) && Handle(v.g, v.disk, own, s, held, node)
    ensures WriteOutcome(Fat(v.g, old(v.disk)), own[s] + held, size, memory) == NoMemory ==>
      n == -1 && if own[s] + held != [] then v.disk == old(v.disk) && Handle(v.g, v.disk, own, s, held, node)
                 else TookCluster(v.g, old(v.disk), v.disk, node.inode)
                      && LiveFile(v.g, v.disk, own, s) && Handle(v.g, v.disk, own, s, [node.inode], node)
    ensures WriteOutcome(Fat(v.g, old(v.disk)), own[s] + held, size, memory) == Done ==>
      n == AsInt32(written) && written <= size
      && WriteDone(v.g, old(v.disk), v.disk, own, s, held, ext, offset, buf[..written], size, node.inode, node.size)
      && FileWritten(v.g, old(v.disk), v.disk, own, Grew(own, s, held + ext), s, held, offset, buf[..written])
      && Handle(v.g, v.disk, Grew(own, s, held + ext), s, [], node)
  {
    hide Content, Splice, Chain, EntrySafe, Stored, FileWritten, Sound, CopiesAgree, Stray;
    ghost var d0 := v.disk;
    HandleReady(v.g, d0, own, s, held, node);
    n, written, ext := VfsWrite(v, node, offset, size, buf, memory, own[s] + held);
    if WriteOutcome(Fat(v.g, d0), own[s] + held, size, memory) == NoMemory {
      if own[s] + held == [] { NowHeld(v.g, d0, v.disk, own, s, node.inode); }
    } else if WriteOutcome(Fat(v.g, d0), own[s] + held, size, memory) == Done {
      WriteFinished(v.g, d0, v.disk, own, s, held, ext, offset, buf[..written], size, node.inode, node.size);
      FileWrittenLive(v.g, d0, v.disk, own, Grew(own, s, held + ext), s, held, offset, buf[..written]);
    }
  }

  lemma NowHeld(g: Geometry, d0: seq<Sector>, d1: seq<Sector>, own: Ownership, s: Slot, c: int)
    requires LiveFile(g, d0, own, s) && TookCluster(g, d0, d1, c) && own[s] == []
    ensures LiveFile(g, d1, own, s) && Holds(g, d1, own, s, [c])
    ensures Placed(g, d1, s) && EntryOf(g, d1, s) == EntryOf(g, d0, s)
  {
    LostCluster(g, d0, d1, own, c);
    FatRegion(g, d0);
  }

  lemma FileWrittenLive(g: Geometry, d0: seq<Sector>, d1: seq<Sector>, own: Ownership, own': Ownership,
                        s: Slot, held: seq<int>, offset: nat, data: seq<Byte>)
    requires LiveFile(g, d0, own, s) && FileWritten(g, d0, d1, own, own', s, held, offset, data)
    ensures LiveFile(g, d1, own', s)
  {
  }

  /** fat16_vfs_read of a live file: the slice of its bytes, as far as its clusters go. */
  method ReadFile(v: Volume, node: Node, offset: nat, size: nat, buf: array<Byte>, memory: bool,
                  ghost own: Ownership, ghost s: Slot)
    returns (n: int)
    requires LiveFile(v.g, v.disk, own, s) && Handle(v.g, v.disk, own, s, [], node)
    requires offset < 0x1_0000_0000 && size < 0x1_0000_0000 && size <= buf.Length
    modifies buf
    ensures var data := FileAt(v.g, v.disk, own, s);
      var count := Readable(|data|, offset, size);
      if offset >= EntryOf(v.g, v.disk, s).fileSize || offset / v.g.ClusterBytes() > |own[s]|
      then n == 0 && buf[..] == old(buf[..])
      else if !memory then n == -1 && buf[..] == old(buf[..])
      else n == AsInt32(count) && buf[..] == Splice(old(buf[..]), 0, Part(data, offset, count))
  {
    FileChain(v.g, v.disk, own, s);
    n := VfsRead(v, node, offset, size, buf, memory, own[s]);
  }
}
