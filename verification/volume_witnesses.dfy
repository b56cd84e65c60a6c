/** Real inputs for the places where the kernel falls short, and states that meet what the
    theorems assume. */
module VolumeWitnesses {
  import opened Bytes
  import opened Collections
  import opened CString
  import opened FatLayout
  import opened FatTable
  import opened FatChain
  import opened FatEntryCodec
  import opened FatNames
  import opened FatDir
  import opened FatVolume
  import opened FatWriteKeeps
  import opened FatCreate
  import opened FatCreateKeeps
  import opened FatFs
  import opened FatFiles
  import opened VfsNode

  // ---- A freshly formatted volume ----

  ghost predicate BlankRoot(g: Geometry, disk: seq<Sector>)
    requires g.Fits(disk)
  {
    FatRegion(g, disk);
    forall lba :: g.RootLba() <= lba < g.DataLba() ==> disk[lba] == ZeroSector()
  }

  /** It is well formed with nothing on it, whatever its FAT says. */
  lemma FormattedWellFormed(g: Geometry, disk: seq<Sector>)
    requires g.Fits(disk) && BlankRoot(g, disk)
    ensures WellFormed(g, disk, map[])
  {
    FatRegion(g, disk);
    forall s | Placed(g, disk, s) && DirLba(g, disk, map[], s.lba)
      ensures EntryOf(g, disk, s).IsEnd()
    {
      ZeroEntry(s.index);
    }
    forall j | 0 <= j < |Entries(g, disk, 0, [])| ensures Entries(g, disk, 0, [])[j].IsEnd() {
      DirSectorOnDisk(g, disk, 0, [], j / 16);
      ZeroEntry(j % 16);
    }
  }

  // ---- A small disk: 254 clusters of one sector, all of them free ----

  const SMALL := Geometry(1, 1, 2, 16, 1)

  function Blank(): seq<Sector> { seq(258, _ => ZeroSector()) }

  lemma BlankVolume()
    ensures SMALL.Fits(Blank()) && BlankRoot(SMALL, Blank()) && SMALL.ClusterBytes() == 512
    ensures WellFormed(SMALL, Blank(), map[]) && Fat(SMALL, Blank()) == seq(256, _ => 0)
    ensures FreeSet(Fat(SMALL, Blank())) == Interval(2, 256) && |FreeSet(Fat(SMALL, Blank()))| == 254
    ensures DirOf(SMALL, Blank(), map[], 0, []) && IsDir(SMALL, Blank(), 0, [])
    ensures |Entries(SMALL, Blank(), 0, [])| == 16 && FirstFree(Entries(SMALL, Blank(), 0, [])) == 0
  {
    assert SMALL.Fits(Blank());
    FormattedWellFormed(SMALL, Blank());
    forall c | 0 <= c < 256 ensures Fat(SMALL, Blank())[c] == 0 {
      assert Fat(SMALL, Blank())[c] == FatAt(SMALL, Blank(), 0, c);
    }
    forall c ensures c in FreeSet(Fat(SMALL, Blank())) <==> c in Interval(2, 256) {
      assert Within(2, c, 256) <==> 2 <= c < 256;
    }
    IntervalCount(2, 256);
    DirSectorOnDisk(SMALL, Blank(), 0, [], 0);
    ZeroEntry(0);
    assert Entries(SMALL, Blank(), 0, [])[0].IsFreeSlot();
  }

  // ---- A directory whose name reads as deleted ----

  const DELETED_NAME: seq<Byte> := [0xE5, 0x41]

  /** mkdir of a name that begins with byte 0xE5 takes a cluster and loses it. */
  method LostDirectory() returns (v: Volume, ghost own: Ownership, ghost c: int)
    ensures fresh(v) && v.g == SMALL && Sound(SMALL, v.disk, own)
    ensures SMALL.Fits(Blank()) && c in Accounted(SMALL, Blank(), map[])
    ensures Accounted(SMALL, v.disk, own) == Accounted(SMALL, Blank(), map[]) - {c}
  {
    hide Sound, Accounted, Accepted, Plain, Field, FreeSet, OwnedAfter, Creates, FirstFree, Found, Geometry.Fits;
    BlankVolume();
    DeletedNameFits();
    v := new Volume(SMALL, Blank());
    var node;
    ghost var made, s, taken;
    node, made, s, taken := VfsCreate(v, 0, DELETED_NAME, true, true, [], map[]);
    own := OwnedAfter(map[], DELETED_NAME, s, taken);
    CreateAccounts(SMALL, Blank(), v.disk, map[], 0, [], DELETED_NAME, true, s, taken);
    TakenFirst(SMALL, Blank(), v.disk, map[], 0, [], DELETED_NAME, s, taken);
    c := taken[0];
    assert Elements(taken) == {c};
  }

  lemma DeletedNameFits()
    ensures Accepted(DELETED_NAME) && Plain(DELETED_NAME)
  {
    assert BasePart(DELETED_NAME) == DELETED_NAME && ExtPart(DELETED_NAME) == [];
  }

  lemma TakenFirst(g: Geometry, d0: seq<Sector>, d1: seq<Sector>, own: Ownership, inode: int, ch: seq<int>,
                   name: seq<Byte>, s: Slot, taken: seq<int>)
    requires Creates(g, d0, d1, own, inode, ch, name, true, s, taken)
    ensures taken == [taken[0]]
  {
  }

  // ---- Writes ----

  const NAME: seq<Byte> := [0x41]

  lemma NameFits()
    ensures Accepted(NAME) && Plain(NAME) && Faithful(NAME) && NAME[0] != DELETED
  {
    assert BasePart(NAME) == NAME && ExtPart(NAME) == [];
  }

  /** An empty file on the blank volume, and a handle of it. */
  method EmptyFile() returns (v: Volume, node: Node, ghost own: Ownership, ghost s: Slot)
    ensures fresh(v) && fresh(node) && v.g == SMALL && WellFormed(SMALL, v.disk, own)
    ensures Handle(SMALL, v.disk, own, s, [], node) && own[s] == [] && IsFile(SMALL, v.disk, own, s)
    ensures FileAt(SMALL, v.disk, own, s) == [] && FreeSet(Fat(SMALL, v.disk)) == Interval(2, 256)
  {
    BlankVolume();
    NameFits();
    v := new Volume(SMALL, Blank());
    ghost var es := Entries(SMALL, Blank(), 0, []);
    assert es[0].IsEnd() by { DirSectorOnDisk(SMALL, Blank(), 0, [], 0); ZeroEntry(0); }
    assert !Found(es, NAME);
    var found;
    ghost var made, taken;
    found, made, s, taken := VfsCreate(v, 0, NAME, false, true, [], map[]);
    own := OwnedAfter(map[], NAME, s, []);
    FoundAfter(SMALL, Blank(), v.disk, map[], 0, [], NAME, s);
    CreatedHandle(SMALL, Blank(), v.disk, map[], 0, [], NAME, s, found);
    node := found;
  }

  lemma FoundAfter(g: Geometry, d0: seq<Sector>, d1: seq<Sector>, own: Ownership, inode: int, ch: seq<int>,
                   name: seq<Byte>, s: Slot)
    requires Creates(g, d0, d1, own, inode, ch, name, false, s, []) && Plain(name)
    requires !Found(Entries(g, d0, inode, ch), name) && Faithful(name) && name[0] != DELETED
    ensures IsDir(g, d1, inode, ch) && Found(Entries(g, d1, inode, ch), name) && Fat(g, d1) == Fat(g, d0)
  {
    hide Sound, Field, Stops, FirstFree, Faithful;
    var e := EntryFor(name, []);
    MadeDir(g, d0, d1, own, inode, ch, s, e, [], inode, ch);
    CreateFinds(Entries(g, d0, inode, ch), name, e);
  }

  /** A byte written behind everything that the disk could hold leaves a file whose size its
      clusters do not reach, on a full disk. */
  method PastTheEnd() returns (v: Volume, ghost own: Ownership, ghost s: Slot)
    ensures fresh(v) && v.g == SMALL && LiveFile(SMALL, v.disk, own, s)
    ensures !IsFile(SMALL, v.disk, own, s) && !WellFormed(SMALL, v.disk, own)
    ensures EntryOf(SMALL, v.disk, s).fileSize == 254 * 512 + 1 && FreeSet(Fat(SMALL, v.disk)) == {}
  {
    hide Sound;
    var node;
    v, node, own, s := EmptyFile();
    IntervalCount(2, 256);
    assert 2 in Interval(2, 256) by { assert Within(2, 2, 256); }
    var buf := new Byte[1];
    ghost var ext, written, own0, d0 := [], 0, own, v.disk;
    var n;
    n, written, ext := WriteFile(v, node, 254 * 512 + 1, 1, buf, true, own, s, []);
    own := Grew(own, s, [] + ext);
    NothingWritten(d0, v.disk, own0, s, ext, buf[..written], node.inode, node.size);
  }

  lemma NothingWritten(d0: seq<Sector>, d1: seq<Sector>, own: Ownership, s: Slot, ext: seq<int>, data: seq<Byte>,
                       first: int, size: int)
    requires IsFile(SMALL, d0, own, s) && own[s] == [] && EntryOf(SMALL, d0, s).fileSize == 0
    requires |FreeSet(Fat(SMALL, d0))| == 254
    requires WriteDone(SMALL, d0, d1, own, s, [], ext, 254 * 512 + 1, data, 1, first, size)
    requires FileWritten(SMALL, d0, d1, own, Grew(own, s, [] + ext), s, [], 254 * 512 + 1, data)
    ensures var own' := Grew(own, s, [] + ext); LiveFile(SMALL, d1, own', s) && !IsFile(SMALL, d1, own', s)
    ensures EntryOf(SMALL, d1, s).fileSize == 254 * 512 + 1 && FreeSet(Fat(SMALL, d1)) == {}
  {
  }

  /** The first write to an empty file runs out of memory with a cluster in its hands. */
  method TakenInVain() returns (v: Volume, node: Node, ghost own: Ownership, ghost s: Slot)
    ensures fresh(v) && fresh(node) && v.g == SMALL && Sound(SMALL, v.disk, own)
    ensures s in own && own[s] == [] && Handle(SMALL, v.disk, own, s, [node.inode], node)
    ensures Stray(SMALL, v.disk, own, node.inode)
  {
    hide Sound;
    v, node, own, s := EmptyFile();
    assert 2 in Interval(2, 256) by { assert Within(2, 2, 256); }
    var buf := new Byte[1];
    var n;
    ghost var written, ext;
    n, written, ext := WriteFile(v, node, 0, 1, buf, false, own, s, []);
  }

  // ---- Names ----

  /** "A." is accepted, stored, and never found again under its name. */
  lemma TrailingDot()
    ensures var name: seq<Byte> := [0x41, DOT]; Accepted(name) && Plain(name) && !Faithful(name)
  {
    var name: seq<Byte> := [0x41, DOT];
    assert name[1..][0] == DOT && DotAt(name) == 1;
    assert BasePart(name) == [0x41] && ExtPart(name) == [];
  }
}
