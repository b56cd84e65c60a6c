/** 32-bit paging: what the hardware's walk of a page directory means for a word memory
    (Intel SDM volume 3A, section 4.3), and what a store into a table does to it. */
module Paging {
  import opened Bits
  import opened Collections

  const PAGE_SIZE := 4096
  const ENTRIES := 1024
  const SELF := 1023
  const PRESENT := 1
  const WRITABLE := 2
  const USER := 4
  const DIRECTORY_WINDOW := 0xFFFF_F000
  const TABLE_WINDOW := 0xFFC0_0000

  /** Physical memory, word by word; a frame is 1024 consecutive words. */
  type Ram = seq<Word>

  ghost predicate Sized(ram: Ram, frames: nat) { |ram| == frames * ENTRIES }

  function WordOf(ram: Ram, frame: nat, i: nat): Word
    requires i < ENTRIES && frame * ENTRIES + i < |ram|
  {
    ram[frame * ENTRIES + i]
  }

  function PutWord(ram: Ram, frame: nat, i: nat, w: Word): Ram
    requires i < ENTRIES && frame * ENTRIES + i < |ram|
  {
    ram[frame * ENTRIES + i := w]
  }

  predicate IsPresent(entry: Word) { entry % 2 == 1 }

  predicate IsUser(entry: nat) { entry / 4 % 2 == 1 }

  predicate IsWritable(entry: nat) { entry / 2 % 2 == 1 }

  function FrameOf(entry: Word): nat { entry / PAGE_SIZE }

  function PdIndex(virt: Word): nat { virt / 0x40_0000 }

  function PtIndex(virt: Word): nat { virt / PAGE_SIZE % ENTRIES }

  function PageOf(virt: Word): nat { virt / PAGE_SIZE }

  /** The hardware's walk: the physical frame and the word in it that an access to `virt`
      reaches, or nothing when an entry on the way is not present. */
  function Walk(ram: Ram, dir: nat, virt: Word): Option<nat> {
    if dir * ENTRIES + PdIndex(virt) >= |ram| then None else
      var pde := ram[dir * ENTRIES + PdIndex(virt)];
      if !IsPresent(pde) || FrameOf(pde) * ENTRIES + PtIndex(virt) >= |ram| then None else
        var pte := ram[FrameOf(pde) * ENTRIES + PtIndex(virt)];
        if !IsPresent(pte) || FrameOf(pte) * ENTRIES + virt % PAGE_SIZE / 4 >= |ram| then None
        else Some(FrameOf(pte) * ENTRIES + virt % PAGE_SIZE / 4)
  }

  /** Whether the hardware lets user mode store at `virt`: the page is there, and both entries
      on the way are writable (bit 1) and open to user mode (bit 2). */
  predicate UserMayStore(ram: Ram, dir: nat, virt: Word) {
    && Walk(ram, dir, virt).Some?
    && var pde := ram[dir * ENTRIES + PdIndex(virt)];
    && var pte := ram[FrameOf(pde) * ENTRIES + PtIndex(virt)];
    && IsWritable(pde) && IsUser(pde) && IsWritable(pte) && IsUser(pte)
  }

  // ---- The page map ----

  /** The directory names itself in its last entry; every other present entry is writable and
      names a frame in memory that is not the directory and not another entry's. */
  ghost predicate Directory(ram: Ram, frames: nat, dir: nat) {
    && Sized(ram, frames) && dir < frames
    && WordOf(ram, dir, SELF) == dir * PAGE_SIZE + PRESENT + WRITABLE
    && (forall i :: 0 <= i < SELF ==> TableOk(ram, frames, dir, i))
    && (forall i, j | 0 <= i < SELF && 0 <= j < SELF && SameTable(ram, dir, i, j) :: i == j)
  }

  ghost predicate HasTable(ram: Ram, dir: nat, i: nat)
    requires i < ENTRIES && dir * ENTRIES + i < |ram|
  {
    IsPresent(WordOf(ram, dir, i))
  }

  /** Both entries are present and name the same frame. */
  ghost predicate SameTable(ram: Ram, dir: nat, i: nat, j: nat)
    requires i < ENTRIES && j < ENTRIES && (dir + 1) * ENTRIES <= |ram|
  {
    HasTable(ram, dir, i) && HasTable(ram, dir, j) && TableFrame(ram, dir, i) == TableFrame(ram, dir, j)
  }

  function TableFrame(ram: Ram, dir: nat, i: nat): nat
    requires i < ENTRIES && dir * ENTRIES + i < |ram|
  {
    FrameOf(WordOf(ram, dir, i))
  }

  ghost predicate TableOk(ram: Ram, frames: nat, dir: nat, i: nat)
    requires Sized(ram, frames) && dir < frames && i < SELF
  {
    HasTable(ram, dir, i) ==>
      TableFrame(ram, dir, i) < frames && TableFrame(ram, dir, i) != dir && IsWritable(WordOf(ram, dir, i))
  }

  ghost function Tables(ram: Ram, dir: nat): set<int>
    requires (dir + 1) * ENTRIES <= |ram|
  {
    set i | 0 <= i < SELF && HasTable(ram, dir, i) :: TableFrame(ram, dir, i)
  }

  datatype Mapping = Mapping(frame: nat, flags: nat)

  /** What a virtual page maps to. */
  ghost function Lookup(ram: Ram, frames: nat, dir: nat, page: nat): Option<Mapping>
    requires Directory(ram, frames, dir) && page < SELF * ENTRIES
  {
    assert TableOk(ram, frames, dir, page / ENTRIES);
    if !HasTable(ram, dir, page / ENTRIES) then None else
      var pte := WordOf(ram, TableFrame(ram, dir, page / ENTRIES), page % ENTRIES);
      if IsPresent(pte) then Some(Mapping(FrameOf(pte), pte % PAGE_SIZE)) else None
  }

  /** The walk of an address agrees with the page map. */
  lemma WalkIsLookup(ram: Ram, frames: nat, dir: nat, virt: Word)
    requires Directory(ram, frames, dir) && PdIndex(virt) < SELF
    ensures PageOf(virt) < SELF * ENTRIES
    ensures match Lookup(ram, frames, dir, PageOf(virt))
      case None => Walk(ram, dir, virt) == None
      case Some(m) => m.frame < frames ==> Walk(ram, dir, virt) == Some(m.frame * ENTRIES + virt % PAGE_SIZE / 4)
  {
    assert PageOf(virt) / ENTRIES == PdIndex(virt);
    assert TableOk(ram, frames, dir, PdIndex(virt));
  }

  /** A page that user mode may use: present, writable and user are its flags, and its directory
      entry has the user bit. */
  ghost predicate UserPage(ram: Ram, frames: nat, dir: nat, page: nat) {
    && Directory(ram, frames, dir) && page < SELF * ENTRIES && IsUser(WordOf(ram, dir, page / ENTRIES))
    && var m := Lookup(ram, frames, dir, page);
    && m.Some? && m.value.frame < frames && m.value.flags == 7
  }

  /** There the hardware lets user mode store. */
  lemma UserPageOpen(ram: Ram, frames: nat, dir: nat, virt: Word)
    requires UserPage(ram, frames, dir, PageOf(virt))
    ensures UserMayStore(ram, dir, virt)
  {
    assert PageOf(virt) / ENTRIES == PdIndex(virt) && PageOf(virt) % ENTRIES == PtIndex(virt);
    WalkIsLookup(ram, frames, dir, virt);
    assert TableOk(ram, frames, dir, PdIndex(virt));
    var pde := ram[dir * ENTRIES + PdIndex(virt)];
    FlagBits(ram[FrameOf(pde) * ENTRIES + PtIndex(virt)]);
  }

  /** The low bits of an entry are those of its flags. */
  lemma FlagBits(entry: Word)
    ensures IsWritable(entry) == IsWritable(entry % PAGE_SIZE) && IsUser(entry) == IsUser(entry % PAGE_SIZE)
  {
    var q, f := entry / PAGE_SIZE, entry % PAGE_SIZE;
    HalfOf(entry, 2048 * q + f / 2, f % 2);
    SameParity(entry / 2, 1024 * q, f / 2);
    QuarterOf(entry, 1024 * q + f / 4, f % 4);
    SameParity(entry / 4, 512 * q, f / 4);
  }

  lemma HalfOf(x: nat, q: nat, r: nat)
    requires x == 2 * q + r && r < 2
    ensures x / 2 == q && x % 2 == r
  {
  }

  lemma QuarterOf(x: nat, q: nat, r: nat)
    requires x == 4 * q + r && r < 4
    ensures x / 4 == q
  {
  }

  lemma SameParity(x: nat, k: nat, y: nat)
    requires x == 2 * k + y
    ensures x % 2 == y % 2
  {
  }

  /** No directory entry that was open to user mode has been closed to it. */
  ghost predicate UserKept(ram: Ram, ram': Ram, dir: nat) {
    && (dir + 1) * ENTRIES <= |ram| == |ram'|
    && forall i :: 0 <= i < SELF && IsUser(WordOf(ram, dir, i)) && HasTable(ram, dir, i) ==>
         IsUser(WordOf(ram', dir, i))
  }

  /** What is open stays open while its mapping and the user bits stay. */
  lemma UserPageKept(ram: Ram, ram': Ram, frames: nat, dir: nat, page: nat)
    requires UserPage(ram, frames, dir, page) && UserKept(ram, ram', dir) && Directory(ram', frames, dir)
    requires Lookup(ram', frames, dir, page) == Lookup(ram, frames, dir, page)
    ensures UserPage(ram', frames, dir, page)
  {
  }

  // ---- The recursive window ----

  function DirectoryEntryAddress(i: nat): Word
    requires i < ENTRIES
  {
    DIRECTORY_WINDOW + 4 * i
  }

  function TableEntryAddress(pd: nat, j: nat): Word
    requires pd < ENTRIES && j < ENTRIES
  {
    TABLE_WINDOW + pd * PAGE_SIZE + 4 * j
  }

  /** The directory window reaches the directory itself. */
  lemma DirectoryWindow(ram: Ram, frames: nat, dir: nat, i: nat)
    requires Sized(ram, frames) && dir < frames && i < ENTRIES
    requires WordOf(ram, dir, SELF) == dir * PAGE_SIZE + PRESENT + WRITABLE
    ensures Walk(ram, dir, DirectoryEntryAddress(i)) == Some(dir * ENTRIES + i)
  {
    DirectoryIndices(i);
    SelfEntry(dir);
  }

  lemma SelfEntry(dir: nat)
    requires dir * PAGE_SIZE + PRESENT + WRITABLE <= FULL
    ensures IsPresent(dir * PAGE_SIZE + PRESENT + WRITABLE) && FrameOf(dir * PAGE_SIZE + PRESENT + WRITABLE) == dir
  {
  }

  lemma DirectoryIndices(i: nat)
    requires i < ENTRIES
    ensures var virt := DirectoryEntryAddress(i);
      PdIndex(virt) == SELF && PtIndex(virt) == SELF && virt % PAGE_SIZE / 4 == i
  {
  }

  lemma TableIndices(pd: nat, j: nat)
    requires pd < ENTRIES && j < ENTRIES
    ensures var virt := TableEntryAddress(pd, j);
      PdIndex(virt) == SELF && PtIndex(virt) == pd && virt % PAGE_SIZE / 4 == j
  {
  }

  /** The table window reaches the page table of its slot. */
  lemma TableWindow(ram: Ram, frames: nat, dir: nat, pd: nat, j: nat)
    requires Sized(ram, frames) && dir < frames && pd < SELF && j < ENTRIES
    requires WordOf(ram, dir, SELF) == dir * PAGE_SIZE + PRESENT + WRITABLE
    requires HasTable(ram, dir, pd) && TableFrame(ram, dir, pd) < frames
    ensures Walk(ram, dir, TableEntryAddress(pd, j)) == Some(TableFrame(ram, dir, pd) * ENTRIES + j)
  {
    TableIndices(pd, j);
    SelfEntry(dir);
  }

  // ---- Stores into the tables ----

  /** What a directory is depends on its own words only. */
  lemma SameDirectory(ram: Ram, ram': Ram, frames: nat, dir: nat)
    requires Directory(ram, frames, dir) && |ram'| == |ram|
    requires forall i :: 0 <= i < ENTRIES ==> WordOf(ram', dir, i) == WordOf(ram, dir, i)
    ensures Directory(ram', frames, dir)
  {
    forall i | 0 <= i < SELF ensures TableOk(ram', frames, dir, i) { assert TableOk(ram, frames, dir, i); }
    forall i, j | 0 <= i < SELF && 0 <= j < SELF && SameTable(ram', dir, i, j) ensures i == j {
      assert SameTable(ram, dir, i, j);
    }
  }

  function MappingOf(entry: Word): Option<Mapping> {
    if IsPresent(entry) then Some(Mapping(FrameOf(entry), entry % PAGE_SIZE)) else None
  }

  /** A store into one table leaves the directory alone and changes the page map at one page. */
  lemma StoreEntry(ram: Ram, frames: nat, dir: nat, pd: nat, j: nat, entry: Word)
    requires Directory(ram, frames, dir) && pd < SELF && j < ENTRIES && HasTable(ram, dir, pd)
    ensures TableFrame(ram, dir, pd) < frames && TableFrame(ram, dir, pd) != dir
    ensures var ram' := PutWord(ram, TableFrame(ram, dir, pd), j, entry);
      && Directory(ram', frames, dir)
      && (forall i :: 0 <= i < ENTRIES ==> WordOf(ram', dir, i) == WordOf(ram, dir, i))
  {
    assert TableOk(ram, frames, dir, pd);
    var ram' := PutWord(ram, TableFrame(ram, dir, pd), j, entry);
    assert forall i :: 0 <= i < ENTRIES ==> WordOf(ram', dir, i) == WordOf(ram, dir, i);
    SameDirectory(ram, ram', frames, dir);
  }

  lemma StoreEntryAt(ram: Ram, frames: nat, dir: nat, pd: nat, j: nat, entry: Word, page: nat)
    requires Directory(ram, frames, dir) && pd < SELF && j < ENTRIES && HasTable(ram, dir, pd)
    requires TableFrame(ram, dir, pd) < frames && page < SELF * ENTRIES
    requires Directory(PutWord(ram, TableFrame(ram, dir, pd), j, entry), frames, dir)
    ensures Lookup(PutWord(ram, TableFrame(ram, dir, pd), j, entry), frames, dir, page) ==
      if page == pd * ENTRIES + j then MappingOf(entry) else Lookup(ram, frames, dir, page)
  {
    var i := page / ENTRIES;
    assert TableOk(ram, frames, dir, i) && TableOk(ram, frames, dir, pd);
    if HasTable(ram, dir, i) && TableFrame(ram, dir, i) == TableFrame(ram, dir, pd) {
      assert SameTable(ram, dir, i, pd);
    }
  }

  /** `ram'` is `ram` but for the words of one frame. */
  ghost predicate SameOutside(ram: Ram, ram': Ram, frame: nat) {
    |ram'| == |ram| && forall k :: 0 <= k < |ram| && k / ENTRIES != frame ==> ram'[k] == ram[k]
  }

  ghost predicate Zeroed(ram: Ram, frame: nat)
    requires (frame + 1) * ENTRIES <= |ram|
  {
    forall i :: 0 <= i < ENTRIES ==> WordOf(ram, frame, i) == 0
  }

  /** The page maps of two memories agree. */
  ghost predicate SamePages(ram: Ram, ram': Ram, frames: nat, dir: nat)
    requires Directory(ram, frames, dir) && Directory(ram', frames, dir)
  {
    forall page :: 0 <= page < SELF * ENTRIES ==> Lookup(ram', frames, dir, page) == Lookup(ram, frames, dir, page)
  }

  /** A new table in an empty slot, zeroed, maps nothing and disturbs nothing. */
  lemma NewTable(ram: Ram, ram': Ram, frames: nat, dir: nat, pd: nat, entry: Word)
    requires Directory(ram, frames, dir) && pd < SELF && !HasTable(ram, dir, pd)
    requires IsPresent(entry) && IsWritable(entry) && FrameOf(entry) < frames && FrameOf(entry) != dir
    requires FrameOf(entry) !in Tables(ram, dir)
    requires SameOutside(PutWord(ram, dir, pd, entry), ram', FrameOf(entry)) && Zeroed(ram', FrameOf(entry))
    ensures UserKept(ram, ram', dir)
    ensures Directory(ram', frames, dir) && SamePages(ram, ram', frames, dir)
    ensures HasTable(ram', dir, pd) && WordOf(ram', dir, pd) == entry
    ensures Tables(ram', dir) == Tables(ram, dir) + {FrameOf(entry)}
  {
    var t := FrameOf(entry);
    assert forall i :: 0 <= i < ENTRIES ==> WordOf(ram', dir, i) == if i == pd then entry else WordOf(ram, dir, i);
    NewTableDirectory(ram, ram', frames, dir, pd, entry);
    forall page | 0 <= page < SELF * ENTRIES
      ensures Lookup(ram', frames, dir, page) == Lookup(ram, frames, dir, page)
    {
      NewTableAt(ram, ram', frames, dir, pd, entry, page);
    }
    TablesAdd(ram, ram', dir, pd, entry);
  }

  lemma NewTableDirectory(ram: Ram, ram': Ram, frames: nat, dir: nat, pd: nat, entry: Word)
    requires Directory(ram, frames, dir) && pd < SELF && !HasTable(ram, dir, pd) && |ram'| == |ram|
    requires IsPresent(entry) && IsWritable(entry) && FrameOf(entry) < frames && FrameOf(entry) != dir
    requires FrameOf(entry) !in Tables(ram, dir)
    requires forall i :: 0 <= i < ENTRIES ==> WordOf(ram', dir, i) == if i == pd then entry else WordOf(ram, dir, i)
    ensures Directory(ram', frames, dir)
  {
    forall i | 0 <= i < SELF ensures TableOk(ram', frames, dir, i) { assert TableOk(ram, frames, dir, i); }
    forall i, j | 0 <= i < SELF && 0 <= j < SELF && SameTable(ram', dir, i, j) ensures i == j {
      if i != pd { assert HasTable(ram, dir, i) ==> TableFrame(ram, dir, i) in Tables(ram, dir); }
      if j != pd { assert HasTable(ram, dir, j) ==> TableFrame(ram, dir, j) in Tables(ram, dir); }
      assert i != pd && j != pd ==> SameTable(ram, dir, i, j);
    }
  }

  lemma NewTableAt(ram: Ram, ram': Ram, frames: nat, dir: nat, pd: nat, entry: Word, page: nat)
    requires Directory(ram, frames, dir) && pd < SELF && !HasTable(ram, dir, pd) && Directory(ram', frames, dir)
    requires IsPresent(entry) && FrameOf(entry) < frames && FrameOf(entry) != dir
    requires FrameOf(entry) !in Tables(ram, dir)
    requires SameOutside(PutWord(ram, dir, pd, entry), ram', FrameOf(entry)) && Zeroed(ram', FrameOf(entry))
    requires page < SELF * ENTRIES
    ensures Lookup(ram', frames, dir, page) == Lookup(ram, frames, dir, page)
  {
    var i, j := page / ENTRIES, page % ENTRIES;
    assert TableOk(ram, frames, dir, i);
    assert WordOf(ram', dir, i) == if i == pd then entry else WordOf(ram, dir, i);
    if i == pd {
      assert WordOf(ram', FrameOf(entry), j) == 0;
    } else if HasTable(ram, dir, i) {
      var t := TableFrame(ram, dir, i);
      assert t in Tables(ram, dir);
      assert (t * ENTRIES + j) / ENTRIES == t;
    }
  }

  lemma TablesAdd(ram: Ram, ram': Ram, dir: nat, pd: nat, entry: Word)
    requires (dir + 1) * ENTRIES <= |ram| == |ram'| && pd < SELF && !HasTable(ram, dir, pd) && IsPresent(entry)
    requires forall i :: 0 <= i < ENTRIES ==> WordOf(ram', dir, i) == if i == pd then entry else WordOf(ram, dir, i)
    ensures Tables(ram', dir) == Tables(ram, dir) + {FrameOf(entry)}
  {
    forall f | f in Tables(ram, dir) + {FrameOf(entry)} ensures f in Tables(ram', dir) {
      if f == FrameOf(entry) {
        assert HasTable(ram', dir, pd) && TableFrame(ram', dir, pd) == f;
      } else {
        var i :| 0 <= i < SELF && HasTable(ram, dir, i) && TableFrame(ram, dir, i) == f;
        assert HasTable(ram', dir, i) && TableFrame(ram', dir, i) == f;
      }
    }
    forall f | f in Tables(ram', dir) ensures f in Tables(ram, dir) + {FrameOf(entry)} {
      var i :| 0 <= i < SELF && HasTable(ram', dir, i) && TableFrame(ram', dir, i) == f;
      if i != pd { assert HasTable(ram, dir, i) && TableFrame(ram, dir, i) == f; }
    }
  }

  /** Changing only the flags of a present directory entry disturbs nothing. */
  lemma MarkEntry(ram: Ram, frames: nat, dir: nat, pd: nat, entry: Word)
    requires Directory(ram, frames, dir) && pd < SELF && HasTable(ram, dir, pd)
    requires IsPresent(entry) && IsWritable(entry) && FrameOf(entry) == TableFrame(ram, dir, pd)
    ensures IsUser(entry) ==> UserKept(ram, PutWord(ram, dir, pd, entry), dir)
    ensures var ram' := PutWord(ram, dir, pd, entry);
      Directory(ram', frames, dir) && SamePages(ram, ram', frames, dir) && Tables(ram', dir) == Tables(ram, dir)
      && HasTable(ram', dir, pd)
  {
    var ram' := PutWord(ram, dir, pd, entry);
    forall i | 0 <= i < ENTRIES
      ensures HasTable(ram', dir, i) == HasTable(ram, dir, i) && TableFrame(ram', dir, i) == TableFrame(ram, dir, i)
    {}
    forall i | 0 <= i < SELF ensures TableOk(ram', frames, dir, i) { assert TableOk(ram, frames, dir, i); }
    forall i, j | 0 <= i < SELF && 0 <= j < SELF && SameTable(ram', dir, i, j) ensures i == j {
      assert SameTable(ram, dir, i, j);
    }
    forall page | 0 <= page < SELF * ENTRIES
      ensures Lookup(ram', frames, dir, page) == Lookup(ram, frames, dir, page)
    {
      assert TableOk(ram, frames, dir, page / ENTRIES);
    }
  }
}
