/** What the FAT16 driver reads and writes, byte by byte (Microsoft FAT specification 1.03, "Boot
    Sector and BPB", "FAT Data Structure", "FAT Directory Structure"): the meaning of the words
    and entries that the other modules speak of. */
module FatFormat {
  import opened Bytes
  import opened Collections
  import opened CString
  import opened FatLayout
  import opened FatTable
  import opened FatChain
  import opened FatData
  import opened FatEntryCodec
  import opened FatNames
  import opened FatDir
  import opened FatCreate
  import opened FatFs
  import opened VfsNode

  // ---- The table ----

  /** The word v lies at byte 2c of FAT copy `copy`, low byte first: 256 words to a sector, the
      copies one after the other behind the reserved sectors. */
  ghost predicate LinkLies(g: Geometry, disk: seq<Sector>, copy: nat, c: nat, v: int) {
    var lba := g.reservedSectors + (if copy == 0 then 0 else g.fatSize) + c / 256;
    lba < |disk| && 0 <= v < 0x1_0000 && disk[lba][c % 256 * 2..c % 256 * 2 + 2] == Le16(v)
  }

  lemma LinkBytes(g: Geometry, disk: seq<Sector>, copy: nat, c: nat)
    requires g.Fits(disk) && c < g.fatSize * 256 && (copy == 0 || (copy == 1 && g.fatCount > 1))
    ensures |Table(g, disk, copy)| == g.fatSize * 256 && LinkLies(g, disk, copy, c, Table(g, disk, copy)[c])
  {
    hide GetU16, Le16, Geometry.Fits;
    FatRegion(g, disk);
    GetIs16(disk[CopyLba(g, copy) + c / 256], c % 256 * 2, Table(g, disk, copy)[c]);
  }

  /** The chain from a link: nothing when the link is below 2 or at least 0xFFF8, otherwise that
      cluster, whose own link is not 0, and the chain from there. */
  lemma ChainFollows(fat: seq<int>, first: int, ch: seq<int>)
    ensures Chain(fat, first, ch) <==>
      if ch == [] then first < 2 || first >= 0xFFF8
      else first == ch[0] && 2 <= first < |fat| && fat[first] != 0 && Chain(fat, fat[first], ch[1..])
  {
    if ch != [] {
      if Chain(fat, first, ch) {
        assert LinkAt(fat, ch, 0);
        forall i | 0 <= i < |ch[1..]| ensures LinkAt(fat, ch[1..], i) { assert LinkAt(fat, ch, i + 1); }
      }
      if first == ch[0] && 2 <= first < |fat| && fat[first] != 0 && Chain(fat, fat[first], ch[1..]) {
        forall i | 0 <= i < |ch| ensures LinkAt(fat, ch, i) {
          if i > 0 { assert LinkAt(fat, ch[1..], i - 1); }
        }
      }
    }
  }

  /** A cluster is free when its two bytes are zero. */
  lemma FreeBytes(g: Geometry, disk: seq<Sector>, c: nat)
    requires g.Fits(disk) && c < g.fatSize * 256
    ensures c in FreeSet(Fat(g, disk)) <==> c >= 2 && LinkLies(g, disk, 0, c, 0)
  {
    hide GetU16, Geometry.Fits;
    LinkBytes(g, disk, 0, c);
    FatRegion(g, disk);
    if LinkLies(g, disk, 0, c, 0) { GetIs16(disk[g.reservedSectors + c / 256], c % 256 * 2, 0); }
  }

  // ---- Entries ----

  /** Entry i of a sector is its bytes 32 i to 32 i + 31: 8 of the name, 3 of the extension, the
      attributes at 11, the first cluster at 26, the size at 28. */
  lemma EntryBytes(s: Sector, i: nat)
    requires i < 16
    ensures var e, b := EntryAt(s, i), s[32 * i..32 * i + 32];
      && e.name == b[..8] && e.ext == b[8..11] && e.attributes == b[11]
      && b[26..28] == Le16(e.firstCluster) && b[28..32] == Le32(e.fileSize)
  {
    hide GetU16, GetU32, Le16, Le32;
    var e, b := EntryAt(s, i), s[32 * i..32 * i + 32];
    GetIs16(s, i * 32 + 26, e.firstCluster);
    GetIs32(s, i * 32 + 28, e.fileSize);
    SlotSlice(s, i, 26, 28);
    SlotSlice(s, i, 28, 32);
    SlotSlice(s, i, 0, 8);
    SlotSlice(s, i, 8, 11);
  }

  /** A stretch of a slot is a stretch of its sector. */
  lemma SlotSlice(s: Sector, i: nat, x: nat, y: nat)
    requires i < 16 && x <= y <= 32
    ensures s[32 * i..32 * i + 32][x..y] == s[i * 32 + x..i * 32 + y]
  {
    SliceOfSlice(s, 32 * i, 32 * i + 32, x, y);
  }

  lemma SliceOfSlice(s: seq<Byte>, lo: nat, hi: nat, x: nat, y: nat)
    requires lo <= hi <= |s| && x <= y <= hi - lo
    ensures s[lo..hi][x..y] == s[lo + x..lo + y]
  {
    var a, b := s[lo..hi][x..y], s[lo + x..lo + y];
    forall k | 0 <= k < y - x ensures a[k] == b[k] {
      assert a[k] == s[lo..hi][x + k];
    }
  }

  /** What vfs_write changes of a directory sector: bytes 26 to 31 of the entry. */
  lemma LocationBytes(s: Sector, i: nat, first: int, size: int)
    requires i < 16 && 0 <= first < 0x1_0000 && 0 <= size < 0x1_0000_0000
    ensures PutLocation(s, i, first, size) == s[..32 * i + 26] + Le16(first) + Le32(size) + s[32 * i + 32..]
  {
    hide GetU16, GetU32, PutU16, PutU32, Le16, Le32;
    var u := PutU16(s, i * 32 + 26, first);
    var t := PutU32(u, i * 32 + 28, size);
    GetIs16(u, i * 32 + 26, first);
    GetIs32(t, i * 32 + 28, size);
    assert t[i * 32 + 26..i * 32 + 28] == u[i * 32 + 26..i * 32 + 28];
    assert t[..i * 32 + 26] == s[..i * 32 + 26] && t[i * 32 + 32..] == s[i * 32 + 32..];
    assert t == t[..i * 32 + 26] + t[i * 32 + 26..i * 32 + 28] + t[i * 32 + 28..i * 32 + 32] + t[i * 32 + 32..];
  }

  /** What fat16_write_dir_entry stores: all 32 bytes. */
  lemma NewEntryBytes(s: Sector, i: nat, e: DirEntry)
    requires i < 16 && e.Shaped() && 0 <= e.attributes < 0x100
    requires 0 <= e.firstCluster < 0x1_0000 && 0 <= e.fileSize < 0x1_0000_0000
    ensures PutEntry(s, i, e) ==
      s[..32 * i] + e.name + e.ext + [e.attributes] + seq(14, _ => 0) + Le16(e.firstCluster) + Le32(e.fileSize)
      + s[32 * i + 32..]
  {
    hide PutLocation, Le16, Le32;
    var attr: Byte := e.attributes;
    var fields := e.name + e.ext + [attr] + seq(14, _ => 0);
    var t: Sector := s[..i * 32] + fields + s[i * 32 + 26..];
    LocationBytes(t, i, e.firstCluster, e.fileSize);
    assert t[..32 * i + 26] == s[..i * 32] + fields && t[32 * i + 32..] == s[32 * i + 32..];
  }

  /** The fields for a name: the part before the first dot and the part behind it, with letters
      a to z made capital, filled up with spaces; attribute 0x20 and no cluster for a file, 0x10
      and its cluster for a directory. */
  lemma NewEntryFields(name: seq<Byte>, taken: seq<int>)
    requires Accepted(name)
    ensures var e := EntryFor(name, taken);
      && FieldOf(e.name, BasePart(name)) && FieldOf(e.ext, ExtPart(name)) && e.fileSize == 0
      && (if taken == [] then e.attributes == 0x20 && e.firstCluster == 0
          else e.attributes == 0x10 && e.firstCluster == taken[0])
    ensures if 0x2E in name then name == BasePart(name) + [0x2E] + ExtPart(name) && 0x2E !in BasePart(name)
            else name == BasePart(name) && ExtPart(name) == []
  {
    var d := DotAt(name);
    if d < |name| {
      assert name == name[..d] + [name[d]] + name[d + 1..];
    } else {
      assert 0x2E !in name;
    }
  }

  /** The names that can be created: up to eight bytes, or one to eight, a dot and up to three. */
  lemma AcceptedNames(name: seq<Byte>)
    ensures Accepted(name) <==>
      if 0x2E in name then exists base, ext :: Dotted(name, base, ext) && 1 <= |base| <= 8 && |ext| <= 3
      else 1 <= |name| <= 8
  {
    var d := DotAt(name);
    if d < |name| {
      assert name == name[..d] + [name[d]] + name[d + 1..];
      assert Dotted(name, name[..d], name[d + 1..]);
      forall base, ext | Dotted(name, base, ext) ensures base == name[..d] && ext == name[d + 1..] {
        assert name[|base|] == 0x2E && forall i :: 0 <= i < |base| ==> name[i] == base[i] && base[i] in base;
        assert |base| == d;
      }
    } else {
      assert 0x2E !in name;
    }
  }

  /** The first dot of the name is between base and ext. */
  ghost predicate Dotted(name: seq<Byte>, base: seq<Byte>, ext: seq<Byte>) {
    name == base + [0x2E] + ext && 0x2E !in base
  }

  ghost predicate FieldOf(field: seq<Byte>, part: seq<Byte>) {
    |part| <= |field| && forall i :: 0 <= i < |field| ==>
      field[i] == if i >= |part| then 0x20 else if 0x61 <= part[i] <= 0x7A then part[i] - 0x20 else part[i]
  }

  /** The first sector of a new directory: "." and its cluster, ".." and its parent's, zeros. */
  lemma DotBytes(c: int, parent: int)
    requires 0 <= c < 0x1_0000 && 0 <= parent < 0x1_0000
    ensures DotSector(c, parent) ==
      [0x2E] + seq(10, _ => 0x20) + [0x10] + seq(14, _ => 0) + Le16(c) + seq(4, _ => 0)
      + [0x2E, 0x2E] + seq(9, _ => 0x20) + [0x10] + seq(14, _ => 0) + Le16(parent) + seq(4, _ => 0) + seq(448, _ => 0)
  {
    hide PutEntry, Le16, Le32;
    var z := ZeroSector();
    var one := PutEntry(z, 0, DotEntry(c));
    NewEntryBytes(z, 0, DotEntry(c));
    NewEntryBytes(one, 1, DotDotEntry(parent));
    ZeroWord();
    assert one[..32] == [0x2E] + seq(10, _ => 0x20) + [0x10] + seq(14, _ => 0) + Le16(c) + seq(4, _ => 0);
    assert one[64..] == seq(448, _ => 0);
  }

  lemma ZeroWord()
    ensures Le32(0) == seq(4, _ => 0)
  {
  }

  // ---- Clusters ----

  /** Byte r of the i-th cluster of a chain is byte r % 512 of sector r / 512 of that cluster;
      cluster 2 begins behind the root directory, and each of the others behind the one before. */
  lemma ContentByte(g: Geometry, disk: seq<Sector>, ch: seq<int>, i: nat, r: nat)
    requires g.Fits(disk) && Clusters(g, ch) && i < |ch| && r < g.sectorsPerCluster * 512
    ensures var lba := g.reservedSectors + g.fatCount * g.fatSize + (g.rootEntryCount * 32 + 511) / 512
                       + (ch[i] - 2) * g.sectorsPerCluster + r / 512;
      && 0 <= lba < |disk| && 0 <= i * (g.sectorsPerCluster * 512) + r < |Content(g, disk, ch)|
      && Content(g, disk, ch)[i * (g.sectorsPerCluster * 512) + r] == disk[lba][r % 512]
  {
    hide Content, ClusterData, Geometry.Fits, Geometry.IsCluster;
    ContentSlice(g, disk, ch, i);
    ClusterOnDisk(g, disk, ch[i]);
    ClusterByte(g, disk, ch[i], r);
    SliceAt(Content(g, disk, ch), Times(i, g.ClusterBytes()), g.ClusterBytes(), r);
  }

  lemma SliceAt(s: seq<Byte>, at: nat, n: nat, r: nat)
    requires at + n <= |s| && r < n
    ensures s[at..at + n][r] == s[at + r]
  {
  }

  lemma ClusterByte(g: Geometry, disk: seq<Sector>, c: int, r: nat)
    requires g.Fits(disk) && g.IsCluster(c) && r < g.ClusterBytes()
    ensures 0 <= g.ClusterLba(c) + r / 512 < |disk|
    ensures ClusterData(g, disk, c)[r] == disk[g.ClusterLba(c) + r / 512][r % 512]
  {
    hide Geometry.Fits, Geometry.ClusterLba;
    ClusterOnDisk(g, disk, c);
  }

  // ---- Directories ----

  /** The sector that holds the n-th sixteen slots of a directory: of the root, which follows the
      FAT copies, or of the clusters, the first of which, number 2, follows the root directory. */
  function SectorOf(g: Geometry, inode: int, ch: seq<int>, n: nat): int
    requires g.sectorsPerCluster > 0 && (inode != 0 ==> n / g.sectorsPerCluster < |ch|)
  {
    var root := g.reservedSectors + g.fatCount * g.fatSize;
    if inode == 0 then root + n
    else root + (g.rootEntryCount * 32 + 511) / 512
         + (ch[n / g.sectorsPerCluster] - 2) * g.sectorsPerCluster + n % g.sectorsPerCluster
  }

  /** The bytes of one slot. */
  type Raw = b: seq<Byte> | |b| == 32 witness seq(32, _ => 0)

  ghost function Slot32(g: Geometry, disk: seq<Sector>, inode: int, ch: seq<int>, j: nat): (b: Raw)
    requires g.Fits(disk) && IsDir(g, disk, inode, ch) && j < DirSectors(g, inode, ch) * 16
  {
    DirSectorOnDisk(g, disk, inode, ch, j / 16);
    disk[SectorOf(g, inode, ch, j / 16)][j % 16 * 32..j % 16 * 32 + 32]
  }

  /** The bytes b are those of entry e. */
  ghost predicate Encodes(b: Raw, e: DirEntry) {
    && e.Shaped() && e.name == b[..8] && e.ext == b[8..11] && e.attributes == b[11]
    && 0 <= e.firstCluster < 0x1_0000 && 0 <= e.fileSize < 0x1_0000_0000
    && b[26..28] == Le16(e.firstCluster) && b[28..32] == Le32(e.fileSize)
  }

  lemma SlotEncodes(g: Geometry, disk: seq<Sector>, inode: int, ch: seq<int>, j: nat)
    requires g.Fits(disk) && IsDir(g, disk, inode, ch) && j < DirSectors(g, inode, ch) * 16
    ensures Encodes(Slot32(g, disk, inode, ch, j), Entries(g, disk, inode, ch)[j])
  {
    hide EntryAt, Le16, Le32, IsDir, Geometry.Fits;
    DirSectorOnDisk(g, disk, inode, ch, j / 16);
    EntryBytes(disk[DirSector(g, inode, ch, j / 16)], j % 16);
  }

  /** A listing shows a slot: not deleted, not a dot entry, no long-name piece, no volume label. */
  predicate Listable(b: Raw) {
    b[0] != 0xE5 && b[0] != 0x2E && b[11] != 0x0F && b[11] / 8 % 2 == 0
  }

  /** A lookup considers it: the dot entries too. */
  predicate Findable(b: Raw) {
    b[0] != 0xE5 && b[11] != 0x0F && b[11] / 8 % 2 == 0
  }

  lemma EncodedShown(b: Raw, e: DirEntry)
    requires Encodes(b, e)
    ensures e.IsEnd() <==> b[0] == 0
    ensures e.IsFreeSlot() <==> b[0] == 0 || b[0] == 0xE5
    ensures Shown(e) <==> Listable(b)
    ensures !Skipped(e) <==> Findable(b)
    ensures e.IsDirectory() <==> b[11] / 16 % 2 == 1
  {
    hide Le16, Le32;
    assert e.name[0] == b[0];
  }

  /** The text of a slot: its name without the spaces at its end and, unless the extension begins
      with a space, a dot and the extension without the spaces at its end. */
  ghost predicate ReadsAs(b: Raw, text: seq<Byte>) {
    exists n: nat, x: nat :: Trims(b[..8], n) && Trims(b[8..11], x)
      && text == b[..n] + (if b[8] == 0x20 then [] else [0x2E] + b[8..8 + x])
  }

  ghost predicate Trims(field: seq<Byte>, n: nat) {
    && n <= |field| && (n > 0 ==> field[n - 1] != 0x20)
    && forall i :: n <= i < |field| ==> field[i] == 0x20
  }

  lemma EncodedText(b: Raw, e: DirEntry)
    requires Encodes(b, e)
    ensures ReadsAs(b, Text83(e))
  {
    hide Le16, Le32, Trim;
    var n, x := |Trim(e.name)|, |Trim(e.ext)|;
    assert Trims(b[..8], n) && Trims(b[8..11], x);
    assert Trim(e.name) == b[..8][..n] == b[..n] && Trim(e.ext) == b[8..11][..x] == b[8..8 + x];
  }

  /** Nothing else is. */
  lemma TextEncoded(b: Raw, e: DirEntry, text: seq<Byte>)
    requires Encodes(b, e) && ReadsAs(b, text)
    ensures text == Text83(e)
  {
    hide Le16, Le32, Trim;
    var n: nat, x: nat :| Trims(b[..8], n) && Trims(b[8..11], x)
      && text == b[..n] + (if b[8] == 0x20 then [] else [0x2E] + b[8..8 + x]);
    TrimIs(e.name, n);
    TrimIs(e.ext, x);
    assert b[..8][..n] == b[..n] && b[8..11][..x] == b[8..8 + x];
  }

  // ---- Listing ----

  /** The slots hold these entries. */
  ghost predicate Encoded(bs: seq<Raw>, es: seq<DirEntry>) {
    |bs| == |es| && forall j :: 0 <= j < |es| ==> Encodes(bs[j], es[j])
  }

  /** How many of the first j slots a listing shows. */
  ghost function ListableBefore(bs: seq<Raw>, j: nat): nat
    requires j <= |bs|
  {
    if j == 0 then 0 else ListableBefore(bs, j - 1) + (if Listable(bs[j - 1]) then 1 else 0)
  }

  /** No slot up to j is the end mark, whose name begins with 0. */
  ghost predicate NoEnd(bs: seq<Raw>, j: nat) {
    j <= |bs| && forall i :: 0 <= i < j ==> bs[i][0] != 0
  }

  /** Slot j comes before the end mark, is listable, and exactly k listable ones come before it. */
  ghost predicate NthListable(bs: seq<Raw>, k: nat, j: nat) {
    j < |bs| && NoEnd(bs, j + 1) && Listable(bs[j]) && ListableBefore(bs, j) == k
  }

  lemma {:induction false} ListedFrom(bs: seq<Raw>, es: seq<DirEntry>, j: nat)
    requires Encoded(bs, es) && Shapes(es) && NoEnd(bs, j)
    ensures ListableBefore(bs, j) <= |Listed(es)| && Listed(es)[ListableBefore(bs, j)..] == Listed(es[j..])
  {
    hide Listed, Encodes, Shown;
    if j == 0 {
      assert es[0..] == es;
    } else {
      var i := j - 1;
      ListedFrom(bs, es, i);
      ListUnfold(es, i);
      EncodedShown(bs[i], es[i]);
      assert bs[i][0] != 0;
      var n := ListableBefore(bs, i);
      assert Shown(es[i]) ==> Listed(es)[n..][1..] == Listed(es)[n + 1..];
    }
  }

  lemma NthListed(bs: seq<Raw>, es: seq<DirEntry>, k: nat, j: nat)
    requires Encoded(bs, es) && Shapes(es) && NthListable(bs, k, j)
    ensures k < |Listed(es)| && Listed(es)[k] == es[j]
  {
    hide Listed, Encodes, Shown;
    ListedFrom(bs, es, j);
    ListUnfold(es, j);
    EncodedShown(bs[j], es[j]);
    assert bs[j][0] != 0 && Listed(es)[k..][0] == es[j];
  }

  /** Going on from slot j finds the k-th one. */
  lemma {:induction false} FindNth(bs: seq<Raw>, es: seq<DirEntry>, k: nat, j: nat)
    requires Encoded(bs, es) && Shapes(es) && NoEnd(bs, j) && ListableBefore(bs, j) <= k < |Listed(es)|
    ensures exists i :: NthListable(bs, k, i)
    decreases |bs| - j
  {
    hide Listed, Encodes, Shown;
    ListedFrom(bs, es, j);
    if j == |bs| {
      NothingListed(es[j..]);
      assert false;
    } else {
      ListUnfold(es, j);
      EncodedShown(bs[j], es[j]);
      assert bs[j][0] != 0;
      if Listable(bs[j]) && ListableBefore(bs, j) == k {
        assert NthListable(bs, k, j);
      } else {
        FindNth(bs, es, k, j + 1);
      }
    }
  }

  lemma NothingListed(es: seq<DirEntry>)
    requires es == []
    ensures Listed(es) == []
  {
  }

  ghost function Slots(g: Geometry, disk: seq<Sector>, inode: int, ch: seq<int>): (bs: seq<Raw>)
    requires g.Fits(disk) && IsDir(g, disk, inode, ch)
    ensures |bs| == (if inode == 0 then (g.rootEntryCount * 32 + 511) / 512 else |ch| * g.sectorsPerCluster) * 16
    ensures Encoded(bs, Entries(g, disk, inode, ch))
  {
    var n := DirSectors(g, inode, ch) * 16;
    forall j | 0 <= j < n ensures Encodes(Slot32(g, disk, inode, ch, j), Entries(g, disk, inode, ch)[j]) {
      SlotEncodes(g, disk, inode, ch, j);
    }
    seq(n, j requires 0 <= j < n => Slot32(g, disk, inode, ch, j))
  }

  /** What readdir says of a slot: name, first cluster, and 2 for a directory or 1 for a file. */
  ghost predicate Describes(d: Dirent, b: Raw) {
    && 0 <= d.inode < 0x1_0000 && b[26..28] == Le16(d.inode) && d.flags == (if b[11] / 16 % 2 == 1 then 2 else 1)
    && exists text :: ReadsAs(b, text) && d.name == Text(text)
  }

  /** The answer r for an index: the entry of the index-th listable slot before the end mark, or
      nothing when there is none. */
  ghost predicate Answers(bs: seq<Raw>, index: nat, r: Option<Dirent>) {
    && (r.Some? <==> exists j: nat :: NthListable(bs, index, j))
    && forall j: nat :: NthListable(bs, index, j) ==> r.Some? && Describes(r.value, bs[j])
  }

  lemma ListingAnswers(bs: seq<Raw>, es: seq<DirEntry>, index: nat)
    requires Encoded(bs, es) && Shapes(es)
    ensures Answers(bs, index, DirentAt(Listed(es), index))
  {
    hide Listed, Encodes, Describes;
    if index < |Listed(es)| { FindNth(bs, es, index, 0); }
    forall j: nat | NthListable(bs, index, j)
      ensures index < |Listed(es)| && Describes(DirentOf(Listed(es)[index]), bs[j])
    {
      NthListed(bs, es, index, j);
      EncodedDescribes(bs[j], es[j]);
    }
  }

  /** fat16_vfs_readdir, in the bytes of the disk. */
  lemma ReadDirBytes(g: Geometry, disk: seq<Sector>, inode: int, ch: seq<int>, index: nat)
    requires g.Fits(disk) && IsDir(g, disk, inode, ch)
    ensures Answers(Slots(g, disk, inode, ch), index, DirentAt(Listed(Entries(g, disk, inode, ch)), index))
  {
    hide Listed, Encodes, IsDir, Geometry.Fits, Answers;
    ListingAnswers(Slots(g, disk, inode, ch), Entries(g, disk, inode, ch), index);
  }

  lemma EncodedDescribes(b: Raw, e: DirEntry)
    requires Encodes(b, e)
    ensures Describes(DirentOf(e), b)
  {
    hide Le16, Le32, Text83, ReadsAs;
    EncodedText(b, e);
    EncodedShown(b, e);
  }

  /** A new entry goes into the first slot that begins with 0 or with E5. */
  lemma FreeSlotBytes(bs: seq<Raw>, es: seq<DirEntry>)
    requires Encoded(bs, es) && Shapes(es)
    ensures var k := FirstFree(es);
      && (k < |bs| ==> bs[k][0] == 0 || bs[k][0] == 0xE5)
      && forall i :: 0 <= i < k ==> bs[i][0] != 0 && bs[i][0] != 0xE5
  {
    hide Encodes, FirstFree;
    forall i | 0 <= i < |es| ensures es[i].IsFreeSlot() <==> bs[i][0] == 0 || bs[i][0] == 0xE5 {
      EncodedShown(bs[i], es[i]);
    }
  }

  // ---- Lookup ----

  /** Two letters that differ in case at most. */
  predicate SameLetter(x: Byte, y: Byte) {
    x == y || (0x61 <= x <= 0x7A && y == x - 0x20) || (0x61 <= y <= 0x7A && x == y - 0x20)
  }

  /** Two texts that differ in case at most. */
  predicate SameLetters(a: seq<Byte>, b: seq<Byte>) {
    |a| == |b| && forall i :: 0 <= i < |a| ==> SameLetter(a[i], b[i])
  }

  lemma SameTextLetters(a: seq<Byte>, b: seq<Byte>)
    ensures SameText(a, b) <==> SameLetters(Text(a), Text(b))
  {
    hide Text, Length;
    var s, t := Text(a), Text(b);
    forall x: Byte, y: Byte ensures Upper(x) == Upper(y) <==> SameLetter(x, y) {}
    if UpperAll(s) == UpperAll(t) {
      forall i | 0 <= i < |s| ensures SameLetter(s[i], t[i]) { assert UpperAll(s)[i] == UpperAll(t)[i]; }
    }
  }

  /** The text of the slot is the name, up to case. */
  ghost predicate Named(b: Raw, name: seq<Byte>) {
    exists text :: ReadsAs(b, text) && SameLetters(Text(text), Text(name))
  }

  lemma EncodedNamed(b: Raw, e: DirEntry, name: seq<Byte>)
    requires Encodes(b, e)
    ensures Matches(e, name) <==> Named(b, name)
  {
    hide ReadsAs, Le16, Le32, SameLetters, SameText, Text, Text83;
    EncodedText(b, e);
    SameTextLetters(Text83(e), name);
    if Named(b, name) {
      var text :| ReadsAs(b, text) && SameLetters(Text(text), Text(name));
      TextEncoded(b, e, text);
    }
  }

  /** Slot k is the first before the end mark that a lookup considers and that has the name. */
  ghost predicate FirstNamed(bs: seq<Raw>, name: seq<Byte>, k: nat) {
    && k < |bs| && NoEnd(bs, k + 1) && Findable(bs[k]) && Named(bs[k], name)
    && forall i :: 0 <= i < k ==> !(Findable(bs[i]) && Named(bs[i], name))
  }

  /** fat16_vfs_finddir finds a name exactly when there is such a slot, and then that one. */
  lemma FindDirSlot(bs: seq<Raw>, es: seq<DirEntry>, name: seq<Byte>)
    requires Encoded(bs, es) && Shapes(es)
    ensures Found(es, name) <==> exists k: nat :: FirstNamed(bs, name, k)
    ensures forall k: nat :: FirstNamed(bs, name, k) ==> k == Scan(es, name)
  {
    hide Encodes, Named, Matches, Skipped, Findable, Scan;
    forall i | 0 <= i < |es| ensures (es[i].IsEnd() <==> bs[i][0] == 0) && (!Skipped(es[i]) <==> Findable(bs[i]))
                                     && (Matches(es[i], name) <==> Named(bs[i], name)) {
      EncodedShown(bs[i], es[i]);
      EncodedNamed(bs[i], es[i], name);
    }
    var n := Scan(es, name);
    forall k: nat | FirstNamed(bs, name, k) ensures k == n && Found(es, name) {
      assert bs[k][0] != 0 && Stops(es[k], name);
      forall i | 0 <= i < k ensures !Stops(es[i], name) { assert bs[i][0] != 0; }
    }
    if Found(es, name) {
      forall i | 0 <= i < n + 1 ensures bs[i][0] != 0 { assert i < n ==> !Stops(es[i], name); }
      forall i | 0 <= i < n ensures !(Findable(bs[i]) && Named(bs[i], name)) { assert !Stops(es[i], name); }
      assert FirstNamed(bs, name, n);
    }
  }

  /** The same for a directory of a disk, and the node that stands for the slot found: its first
      cluster, its size unless it is a directory, and where the slot is. */
  lemma FindDirBytes(g: Geometry, disk: seq<Sector>, inode: int, ch: seq<int>, name: seq<Byte>)
    requires g.Fits(disk) && IsDir(g, disk, inode, ch)
    ensures var bs, es := Slots(g, disk, inode, ch), Entries(g, disk, inode, ch);
      && (Found(es, name) <==> exists k: nat :: FirstNamed(bs, name, k))
      && forall k: nat :: FirstNamed(bs, name, k) ==> k == Scan(es, name)
  {
    hide Encodes, IsDir, Geometry.Fits, Found, FirstNamed, Scan;
    FindDirSlot(Slots(g, disk, inode, ch), Entries(g, disk, inode, ch), name);
  }

  lemma NodeBytes(g: Geometry, disk: seq<Sector>, inode: int, ch: seq<int>, k: nat, node: Node)
    requires g.Fits(disk) && IsDir(g, disk, inode, ch) && k < DirSectors(g, inode, ch) * 16
    requires NodeFor(g, disk, inode, ch, k, node)
    ensures var b := Slots(g, disk, inode, ch)[k];
      && 0 <= node.inode < 0x1_0000 && b[26..28] == Le16(node.inode) && 0 <= node.size < 0x1_0000_0000
      && (if b[11] / 16 % 2 == 1 then node.flags == 2 && node.size == 0
          else node.flags == 1 && b[28..32] == Le32(node.size))
      && (exists text :: ReadsAs(b, text) && node.name == Text(text))
    ensures DirSectorOk(g, inode, ch, k) && node.dirLba == SectorOf(g, inode, ch, k / 16) && node.dirIndex == k % 16
  {
    hide Le16, Le32, ReadsAs, Text83, IsDir, Geometry.Fits, EntryAt;
    DirSectorOnDisk(g, disk, inode, ch, k / 16);
    var b, e := Slot32(g, disk, inode, ch, k), Entries(g, disk, inode, ch)[k];
    SlotEncodes(g, disk, inode, ch, k);
    EncodedText(b, e);
    EncodedShown(b, e);
  }

  ghost predicate DirSectorOk(g: Geometry, inode: int, ch: seq<int>, k: nat) {
    g.sectorsPerCluster > 0 && (inode != 0 ==> k / 16 / g.sectorsPerCluster < |ch|)
  }
}
