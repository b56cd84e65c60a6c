/** The 32-byte directory entries, sixteen to a sector. */
module FatEntryCodec {
  import opened Bytes
  import opened FatLayout

  const ATTR_VOLUME_ID := 0x08
  const ATTR_DIRECTORY := 0x10
  const ATTR_ARCHIVE := 0x20
  const ATTR_LFN := 0x0F
  const SPACE: Byte := 0x20
  const DOT: Byte := 0x2E
  const DELETED: Byte := 0xE5

  datatype DirEntry = DirEntry(name: seq<Byte>, ext: seq<Byte>, attributes: int, firstCluster: int, fileSize: int)
  {
    predicate Shaped() { |name| == 8 && |ext| == 3 }

    predicate HasAttr(bit: int)
      requires bit > 0
    {
      attributes / bit % 2 == 1
    }

    predicate IsEnd() requires Shaped() { name[0] == 0 }

    predicate IsFreeSlot() requires Shaped() { name[0] == 0 || name[0] == DELETED }

    predicate IsDirectory() { HasAttr(ATTR_DIRECTORY) }
  }

  /** Entry i of a directory sector. */
  function EntryAt(s: Sector, i: nat): (e: DirEntry)
    requires i < 16
    ensures e.Shaped() && 0 <= e.attributes < 0x100
    ensures 0 <= e.firstCluster < 0x1_0000 && 0 <= e.fileSize < 0x1_0000_0000
  {
    DirEntry(s[i * 32..i * 32 + 8], s[i * 32 + 8..i * 32 + 11], s[i * 32 + 11],
             GetU16(s, i * 32 + 26), GetU32(s, i * 32 + 28))
  }

  /** The sector with the location fields of entry i replaced. */
  function PutLocation(s: Sector, i: nat, first: int, size: int): (t: Sector)
    requires i < 16 && 0 <= first < 0x1_0000 && 0 <= size < 0x1_0000_0000
  {
    PutU32(PutU16(s, i * 32 + 26, first), i * 32 + 28, size)
  }

  lemma LocationPut(s: Sector, i: nat, first: int, size: int)
    requires i < 16 && 0 <= first < 0x1_0000 && 0 <= size < 0x1_0000_0000
    ensures var t := PutLocation(s, i, first, size);
      && EntryAt(t, i) == EntryAt(s, i).(firstCluster := first, fileSize := size)
      && forall j :: 0 <= j < 16 && j != i ==> EntryAt(t, j) == EntryAt(s, j)
  {
    var t := PutLocation(s, i, first, size);
    var u := PutU16(s, i * 32 + 26, first);
    assert forall k :: 0 <= k < 512 && !(i * 32 + 26 <= k < i * 32 + 32) ==> t[k] == s[k];
    assert GetU16(t, i * 32 + 26) == GetU16(u, i * 32 + 26);
    forall j | 0 <= j < 16 && j != i ensures EntryAt(t, j) == EntryAt(s, j) {
      assert forall k :: j * 32 <= k < j * 32 + 32 ==> t[k] == s[k];
    }
  }
}
