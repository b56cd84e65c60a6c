/** The whole volume: which slot owns which clusters, and what every operation keeps. */
module FatVolume {
  import opened Bytes
  import opened FatLayout
  import opened FatTable
  import opened FatChain
  import opened FatRead
  import opened FatEntryCodec
  import opened FatWrite
  import opened FatDir

  /** A place for a directory entry: a sector and one of its sixteen entries. */
  datatype Slot = Slot(lba: int, index: int)

  /** Which clusters each live file or directory owns, in chain order. */
  type Ownership = map<Slot, seq<int>>

  ghost predicate Placed(g: Geometry, disk: seq<Sector>, s: Slot) {
    g.RootLba() <= s.lba < |disk| && 0 <= s.index < 16
  }

  ghost function EntryOf(g: Geometry, disk: seq<Sector>, s: Slot): (e: DirEntry)
    requires Placed(g, disk, s)
    ensures e.Shaped() && 0 <= e.firstCluster < 0x1_0000 && 0 <= e.fileSize < 0x1_0000_0000
  {
    EntryAt(disk[s.lba], s.index)
  }

  /** An entry that names a file or a directory of its own; "." and ".." do not. */
  predicate Owner(e: DirEntry)
    requires e.Shaped()
  {
    !e.IsFreeSlot() && Shown(e)
  }

  ghost predicate DirChainAt(g: Geometry, disk: seq<Sector>, own: Ownership, s: Slot, lba: int) {
    s in own && Placed(g, disk, s) && EntryOf(g, disk, s).IsDirectory() && OnChain(g, lba, own[s])
  }

  /** The sector belongs to the root directory or to a live subdirectory. */
  ghost predicate DirLba(g: Geometry, disk: seq<Sector>, own: Ownership, lba: int) {
    g.RootLba() <= lba < g.DataLba() || exists s :: DirChainAt(g, disk, own, s, lba)
  }

  ghost predicate EntryOk(fat: seq<int>, e: DirEntry, ch: seq<int>)
    requires e.Shaped()
  {
    && Owner(e) && Chain(fat, e.firstCluster, ch)
    && if e.IsDirectory() then ch != [] else ch == [] ==> e.firstCluster < 2
  }

  ghost predicate SlotOk(g: Geometry, disk: seq<Sector>, own: Ownership, s: Slot)
    requires g.Fits(disk) && s in own
  {
    Placed(g, disk, s) && DirLba(g, disk, own, s.lba) && EntryOk(Fat(g, disk), EntryOf(g, disk, s), own[s])
  }

  ghost predicate Disjoint(own: Ownership) {
    forall s, t, c :: s in own && t in own && c in own[s] && c in own[t] ==> s == t
  }

  ghost predicate Complete(g: Geometry, disk: seq<Sector>, own: Ownership) {
    forall s :: Placed(g, disk, s) && DirLba(g, disk, own, s.lba) && Owner(EntryOf(g, disk, s)) ==> s in own
  }

  /** After the first end mark every entry is an end mark. */
  predicate TidyEntries(es: seq<DirEntry>)
    requires Shapes(es)
  {
    forall j, k :: 0 <= j < k < |es| && es[j].IsEnd() ==> es[k].IsEnd()
  }

  ghost predicate TidyDir(g: Geometry, disk: seq<Sector>, inode: int, ch: seq<int>)
    requires g.Fits(disk)
  {
    IsDir(g, disk, inode, ch) && TidyEntries(Entries(g, disk, inode, ch))
  }

  ghost predicate Tidy(g: Geometry, disk: seq<Sector>, own: Ownership)
    requires g.Fits(disk)
  {
    && TidyDir(g, disk, 0, [])
    && forall s :: s in own && Placed(g, disk, s) && EntryOf(g, disk, s).IsDirectory() ==>
         TidyDir(g, disk, EntryOf(g, disk, s).firstCluster, own[s])
  }

  /** A directory: the root, or the chain owned by a directory entry. */
  ghost predicate DirOf(g: Geometry, disk: seq<Sector>, own: Ownership, inode: int, ch: seq<int>) {
    if inode == 0 then ch == []
    else exists s :: DirNamed(g, disk, own, s, inode, ch)
  }

  ghost predicate DirNamed(g: Geometry, disk: seq<Sector>, own: Ownership, s: Slot, inode: int, ch: seq<int>) {
    s in own && Placed(g, disk, s) && EntryOf(g, disk, s).IsDirectory()
    && EntryOf(g, disk, s).firstCluster == inode && own[s] == ch
  }

  ghost predicate LeadsToDir(g: Geometry, disk: seq<Sector>, own: Ownership, inode: int) {
    exists ch :: DirOf(g, disk, own, inode, ch)
  }

  /** Visible entries that begin with a dot are "." and "..". */
  predicate Dotted(e: DirEntry)
    requires e.Shaped()
  {
    e.name[0] == DOT && !Skipped(e)
  }

  /** They lead to directories. */
  ghost predicate DotsLead(g: Geometry, disk: seq<Sector>, own: Ownership) {
    forall s :: Placed(g, disk, s) && DirLba(g, disk, own, s.lba) && Dotted(EntryOf(g, disk, s)) ==>
      EntryOf(g, disk, s).IsDirectory() && LeadsToDir(g, disk, own, EntryOf(g, disk, s).firstCluster)
  }

  /** The structure of a volume: what every call keeps, whatever comes of it. */
  ghost predicate Sound(g: Geometry, disk: seq<Sector>, own: Ownership) {
    && g.Fits(disk)
    && (forall s :: s in own ==> SlotOk(g, disk, own, s))
    && Disjoint(own) && Complete(g, disk, own) && Tidy(g, disk, own) && DotsLead(g, disk, own)
  }

  /** The entry at `s` is that of a live file. */
  ghost predicate LiveFile(g: Geometry, disk: seq<Sector>, own: Ownership, s: Slot) {
    Sound(g, disk, own) && s in own && Placed(g, disk, s) && !EntryOf(g, disk, s).IsDirectory()
  }

  /** A live file whose clusters reach its recorded size. */
  ghost predicate IsFile(g: Geometry, disk: seq<Sector>, own: Ownership, s: Slot) {
    LiveFile(g, disk, own, s) && EntryOf(g, disk, s).fileSize <= Times(|own[s]|, g.ClusterBytes())
  }

  /** A sound volume on which the clusters of every file reach its recorded size. */
  ghost predicate WellFormed(g: Geometry, disk: seq<Sector>, own: Ownership) {
    Sound(g, disk, own) && forall s :: LiveFile(g, disk, own, s) ==> IsFile(g, disk, own, s)
  }

  /** Every cluster that some live entry owns. */
  ghost function Owned(own: Ownership): set<int> {
    set s, c | s in own && c in own[s] :: c
  }

  /** The clusters that are free or owned; an operation loses none and shares none
      exactly when this set stays the same. */
  ghost function Accounted(g: Geometry, disk: seq<Sector>, own: Ownership): set<int>
    requires g.Fits(disk)
  {
    FreeSet(Fat(g, disk)) + Owned(own)
  }

  /** Owned clusters are allocated and lie in range. */
  lemma OwnedAllocated(g: Geometry, disk: seq<Sector>, own: Ownership, s: Slot, c: int)
    requires Sound(g, disk, own) && s in own && c in own[s]
    ensures g.IsCluster(c) && Fat(g, disk)[c] != 0 && c !in FreeSet(Fat(g, disk))
  {
    assert SlotOk(g, disk, own, s);
    var i :| 0 <= i < |own[s]| && own[s][i] == c;
    assert LinkAt(Fat(g, disk), own[s], i);
  }

  /** No cluster that is free is owned. */
  lemma FreeNotOwned(g: Geometry, disk: seq<Sector>, own: Ownership)
    requires Sound(g, disk, own)
    ensures FreeSet(Fat(g, disk)) !! Owned(own)
  {
    forall c | c in Owned(own) ensures c !in FreeSet(Fat(g, disk)) {
      var s :| s in own && c in own[s];
      OwnedAllocated(g, disk, own, s, c);
    }
  }

  /** A cluster that holds a sector of a directory belongs to that directory's chain. */
  lemma DirSectorOwner(g: Geometry, disk: seq<Sector>, own: Ownership, lba: int, c: int) returns (t: Slot)
    requires Sound(g, disk, own) && DirLba(g, disk, own, lba) && g.InCluster(lba, c)
    ensures DirChainAt(g, disk, own, t, lba) && c in own[t] && c !in FreeSet(Fat(g, disk))
  {
    ClusterInData(g, lba, c);
    t :| DirChainAt(g, disk, own, t, lba);
    var i :| 0 <= i < |own[t]| && g.InCluster(lba, own[t][i]);
    ClusterInjective(g, lba, c, own[t][i]);
    OwnedAllocated(g, disk, own, t, c);
  }

  /** A sector of a directory is on no file's chain and in no free cluster. */
  lemma DirSectorApart(g: Geometry, disk: seq<Sector>, own: Ownership, lba: int, s: Slot, c: int)
    requires Sound(g, disk, own) && DirLba(g, disk, own, lba) && g.InCluster(lba, c)
    requires s in own && !EntryOf(g, disk, s).IsDirectory()
    ensures c !in own[s] && c !in FreeSet(Fat(g, disk))
  {
    var t := DirSectorOwner(g, disk, own, lba, c);
  }

  /** A live directory entry names its directory. */
  lemma OwnedDir(g: Geometry, disk: seq<Sector>, own: Ownership, s: Slot)
    requires Sound(g, disk, own) && s in own && Placed(g, disk, s) && EntryOf(g, disk, s).IsDirectory()
    ensures EntryOf(g, disk, s).firstCluster >= 2
    ensures DirOf(g, disk, own, EntryOf(g, disk, s).firstCluster, own[s])
  {
    assert SlotOk(g, disk, own, s);
    assert LinkAt(Fat(g, disk), own[s], 0);
    assert DirNamed(g, disk, own, s, EntryOf(g, disk, s).firstCluster, own[s]);
  }

  lemma DirOfIsDir(g: Geometry, disk: seq<Sector>, own: Ownership, inode: int, ch: seq<int>)
    requires Sound(g, disk, own) && DirOf(g, disk, own, inode, ch)
    ensures TidyDir(g, disk, inode, ch)
  {
  }

  lemma OnChainAt(g: Geometry, lba: int, ch: seq<int>, i: nat)
    requires i < |ch| && g.InCluster(lba, ch[i])
    ensures OnChain(g, lba, ch)
  {
  }

  /** Every sector of a directory counts as one. */
  lemma DirSectorIsDirLba(g: Geometry, disk: seq<Sector>, own: Ownership, inode: int, ch: seq<int>, n: nat)
    requires g.Fits(disk) && IsDir(g, disk, inode, ch) && DirOf(g, disk, own, inode, ch) && n < DirSectors(g, inode, ch)
    ensures inode != 0 ==> n / g.sectorsPerCluster < |ch|
    ensures DirLba(g, disk, own, DirSector(g, inode, ch, n))
    ensures g.RootLba() <= DirSector(g, inode, ch, n) < |disk|
  {
    DirSectorOnDisk(g, disk, inode, ch, n);
    if inode != 0 {
      var s :| DirNamed(g, disk, own, s, inode, ch);
      OnChainAt(g, DirSector(g, inode, ch, n), ch, n / g.sectorsPerCluster);
      assert DirChainAt(g, disk, own, s, DirSector(g, inode, ch, n));
    }
  }

  /** Where entry j of a directory lies. */
  function SlotAt(g: Geometry, inode: int, ch: seq<int>, j: nat): Slot
    requires g.sectorsPerCluster > 0 && (inode != 0 ==> j / 16 / g.sectorsPerCluster < |ch|)
  {
    Slot(DirSector(g, inode, ch, j / 16), j % 16)
  }

  lemma SlotAtEntry(g: Geometry, disk: seq<Sector>, own: Ownership, inode: int, ch: seq<int>, j: nat)
    requires g.Fits(disk) && IsDir(g, disk, inode, ch) && DirOf(g, disk, own, inode, ch)
    requires j < |Entries(g, disk, inode, ch)|
    ensures inode != 0 ==> j / 16 / g.sectorsPerCluster < |ch|
    ensures var s := SlotAt(g, inode, ch, j);
      Placed(g, disk, s) && DirLba(g, disk, own, s.lba) && EntryOf(g, disk, s) == Entries(g, disk, inode, ch)[j]
  {
    DirSectorIsDirLba(g, disk, own, inode, ch, j / 16);
  }

  /** No slot belongs to two directories, or twice to one. */
  lemma SlotAtInjective(g: Geometry, disk: seq<Sector>, own: Ownership,
                        inode: int, ch: seq<int>, j: nat, inode': int, ch': seq<int>, j': nat)
    requires Sound(g, disk, own) && DirOf(g, disk, own, inode, ch) && DirOf(g, disk, own, inode', ch')
    requires IsDir(g, disk, inode, ch) && IsDir(g, disk, inode', ch')
    requires j / 16 < DirSectors(g, inode, ch) && j' / 16 < DirSectors(g, inode', ch')
    requires inode != 0 ==> j / 16 / g.sectorsPerCluster < |ch|
    requires inode' != 0 ==> j' / 16 / g.sectorsPerCluster < |ch'|
    requires SlotAt(g, inode, ch, j) == SlotAt(g, inode', ch', j')
    ensures inode == inode' && ch == ch' && j == j'
  {
    SectorInjective(g, disk, own, inode, ch, j / 16, inode', ch', j' / 16);
  }

  lemma SectorInjective(g: Geometry, disk: seq<Sector>, own: Ownership,
                        inode: int, ch: seq<int>, n: nat, inode': int, ch': seq<int>, n': nat)
    requires Sound(g, disk, own) && DirOf(g, disk, own, inode, ch) && DirOf(g, disk, own, inode', ch')
    requires IsDir(g, disk, inode, ch) && IsDir(g, disk, inode', ch')
    requires n < DirSectors(g, inode, ch) && n' < DirSectors(g, inode', ch')
    requires inode != 0 ==> n / g.sectorsPerCluster < |ch|
    requires inode' != 0 ==> n' / g.sectorsPerCluster < |ch'|
    requires DirSector(g, inode, ch, n) == DirSector(g, inode', ch', n')
    ensures inode == inode' && ch == ch' && n == n'
  {
    DivMod(n, g.sectorsPerCluster);
    DivMod(n', g.sectorsPerCluster);
    var i, i' := n / g.sectorsPerCluster, n' / g.sectorsPerCluster;
    DirSectorOnDisk(g, disk, inode, ch, n);
    DirSectorOnDisk(g, disk, inode', ch', n');
    var lba := DirSector(g, inode, ch, n);
    if inode != 0 { ClusterInData(g, lba, ch[i]); }
    if inode' != 0 { ClusterInData(g, lba, ch'[i']); }
    if inode != 0 && inode' != 0 {
      ClusterInjective(g, lba, ch[i], ch'[i']);
      SameDir(g, disk, own, inode, ch, inode', ch', ch[i]);
      SectorInChain(g, disk, inode, ch, n, n', i, i');
    }
  }

  lemma SectorInChain(g: Geometry, disk: seq<Sector>, inode: int, ch: seq<int>, n: nat, n': nat, i: nat, i': nat)
    requires g.Fits(disk) && inode != 0 && IsDir(g, disk, inode, ch)
    requires n / g.sectorsPerCluster == i < |ch| && n' / g.sectorsPerCluster == i' < |ch| && ch[i] == ch[i']
    requires DirSector(g, inode, ch, n) == DirSector(g, inode, ch, n')
    ensures n == n'
  {
    ChainDistinct(Fat(g, disk), inode, ch);
    assert i == i';
    SameRemainder(n, n', g.sectorsPerCluster);
  }

  lemma SameRemainder(n: nat, n': nat, k: nat)
    requires 0 < k && n / k == n' / k && n % k == n' % k
    ensures n == n'
  {
    DivMod(n, k);
    DivMod(n', k);
  }

  lemma SameDir(g: Geometry, disk: seq<Sector>, own: Ownership, inode: int, ch: seq<int>, inode': int, ch': seq<int>,
                c: int)
    requires Disjoint(own) && DirOf(g, disk, own, inode, ch) && DirOf(g, disk, own, inode', ch')
    requires inode != 0 && inode' != 0 && c in ch && c in ch'
    ensures inode == inode' && ch == ch'
  {
    var s :| DirNamed(g, disk, own, s, inode, ch);
    var t :| DirNamed(g, disk, own, t, inode', ch');
    assert s == t;
  }
}
