/** The virtual memory manager: page tables edited through a recursive window, and the
    frames that back pages and tables. */
module Vmm {
  import opened Bits
  import opened Collections
  import opened Paging
  import opened Pmm

  /** entry | PAGE_PRESENT */
  function WithPresent(flags: nat): nat { if flags % 2 == 1 then flags else flags + PRESENT }

  /** The flags of an entry that was stored for `flags`: every bit of theirs, and present. */
  ghost predicate FlagsStored(flags: nat, stored: nat) {
    stored < PAGE_SIZE && forall k: nat :: k < 12 ==> (Bit(stored, k) <==> Bit(flags, k) || k == 0)
  }

  lemma StoredOpen(flags: nat, stored: nat)
    requires FlagsStored(flags, stored)
    ensures (IsWritable(flags) ==> IsWritable(stored)) && (IsUser(flags) ==> IsUser(stored))
  {
    LowFlags(flags);
    LowFlags(stored);
  }

  /** Bit 1 allows stores, bit 2 user mode. */
  lemma LowFlags(flags: nat)
    ensures (Bit(flags, 1) <==> IsWritable(flags)) && (Bit(flags, 2) <==> IsUser(flags))
  {
    FourthOf(flags);
    assert Bit(flags, 1) <==> Bit(flags / 2, 0);
    assert Bit(flags, 2) <==> Bit(flags / 2, 1);
    assert Bit(flags / 2, 1) <==> Bit(flags / 2 / 2, 0);
  }

  lemma FourthOf(x: nat)
    ensures x / 2 / 2 == x / 4
  {
  }

  lemma PresentStored(flags: nat)
    requires flags < PAGE_SIZE
    ensures FlagsStored(flags, WithPresent(flags))
  {
    forall k: nat | k < 12 ensures Bit(WithPresent(flags), k) <==> Bit(flags, k) || k == 0 {
      if k > 0 { assert Bit(WithPresent(flags) / 2, k - 1) <==> Bit(flags / 2, k - 1); }
    }
  }

  /** flags & PAGE_USER */
  function UserBit(flags: nat): nat { if IsUser(flags) then USER else 0 }

  class Vmm {
    const pmm: Pmm
    var ram: Ram
    var dir: nat
    constructor (pmm: Pmm, ram: Ram)
      ensures this.pmm == pmm && this.ram == ram
    {
      this.pmm := pmm;
      this.ram := ram;
      dir := 0;
    }

    /** The hardware's view is in order and every table is backed by a used frame. */
    ghost predicate Ready()
      reads this, pmm, pmm.bitmap
    {
      && pmm.Valid() && 0 in pmm.Used()
      && Directory(ram, pmm.maxBlocks, dir)
      && dir in pmm.Used() && Tables(ram, dir) <= pmm.Used()
    }

    ghost function Now(): View
      reads this, pmm, pmm.bitmap
      requires pmm.Valid()
    {
      View(pmm.Used(), ram, pmm.maxBlocks, dir)
    }

    // ---- Memory accesses by virtual address ----

    method Load(virt: Word) returns (w: Word)
      requires Walk(ram, dir, virt).Some?
      ensures Walk(ram, dir, virt).value < |ram| && w == ram[Walk(ram, dir, virt).value]
    {
      w := ram[Walk(ram, dir, virt).value];
    }

    method Store(virt: Word, w: Word)
      requires Walk(ram, dir, virt).Some?
      modifies this`ram
      ensures Walk(old(ram), dir, virt).value < |old(ram)|
      ensures ram == old(ram)[Walk(old(ram), dir, virt).value := w]
    {
      ram := ram[Walk(ram, dir, virt).value := w];
    }

    method LoadDirectory(i: nat) returns (entry: Word)
      requires Directory(ram, pmm.maxBlocks, dir) && i < ENTRIES
      ensures entry == WordOf(ram, dir, i)
    {
      DirectoryWindow(ram, pmm.maxBlocks, dir, i);
      entry := Load(DirectoryEntryAddress(i));
    }

    method StoreDirectory(i: nat, entry: Word)
      requires Directory(ram, pmm.maxBlocks, dir) && i < ENTRIES
      modifies this`ram
      ensures |old(ram)| == pmm.maxBlocks * ENTRIES && ram == PutWord(old(ram), dir, i, entry)
    {
      DirectoryWindow(ram, pmm.maxBlocks, dir, i);
      Store(DirectoryEntryAddress(i), entry);
    }

    /** memset of a whole table through its window. */
    method ZeroTable(pd: nat)
      requires Sized(ram, pmm.maxBlocks) && dir < pmm.maxBlocks && pd < SELF
      requires WordOf(ram, dir, SELF) == dir * PAGE_SIZE + PRESENT + WRITABLE
      requires HasTable(ram, dir, pd) && TableFrame(ram, dir, pd) < pmm.maxBlocks && TableFrame(ram, dir, pd) != dir
      modifies this`ram
      ensures var t := TableFrame(old(ram), dir, pd);
        |ram| == |old(ram)| && SameOutside(old(ram), ram, t) && Zeroed(ram, t)
    {
      ghost var t := TableFrame(ram, dir, pd);
      for j := 0 to ENTRIES
        invariant |ram| == |old(ram)| && SameOutside(old(ram), ram, t)
        invariant forall i :: 0 <= i < j ==> WordOf(ram, t, i) == 0
      {
        KeepsDirectory(old(ram), ram, dir, t, SELF);
        KeepsDirectory(old(ram), ram, dir, t, pd);
        TableWindow(ram, pmm.maxBlocks, dir, pd, j);
        ghost var before := ram;
        Store(TableEntryAddress(pd, j), 0);
        ZeroedOne(old(ram), before, ram, t, j);
      }
    }

    // ---- Mapping ----

    /** Finds or makes the table of a directory slot. */
    method EnsureTable(pd: nat, flags: nat) returns (ok: bool)
      requires Ready() && pd < SELF && flags < PAGE_SIZE
      modifies this`ram, pmm`usedBlocks, pmm.bitmap
      ensures Ready() && pmm.maxBlocks == old(pmm.maxBlocks)
      ensures ok <==> old(HasTable(ram, dir, pd)) || old(pmm.Free()) != {}
      ensures !ok ==> ram == old(ram) && pmm.Used() == old(pmm.Used())
      ensures ok ==> HasTable(ram, dir, pd) && SamePages(old(ram), ram, pmm.maxBlocks, dir)
      ensures old(HasTable(ram, dir, pd)) ==> Tables(ram, dir) == old(Tables(ram, dir)) && pmm.Used() == old(pmm.Used())
      ensures ok && !old(HasTable(ram, dir, pd)) ==>
        var t := TableFrame(ram, dir, pd);
        t in old(pmm.Free()) && Tables(ram, dir) == old(Tables(ram, dir)) + {t} && pmm.Used() == old(pmm.Used()) + {t}
      ensures ok && IsUser(flags) ==> IsUser(WordOf(ram, dir, pd))
      ensures UserKept(old(ram), ram, dir)
      ensures OtherFramesSame(old(ram), ram, dir)
    {
      var pde := LoadDirectory(pd);
      if !IsPresent(pde) {
        ok := MakeTable(pd, flags);
      } else {
        ok := true;
        if IsUser(flags) {
          pde := LoadDirectory(pd);
          WithUserParts(pde);
          assert TableOk(ram, pmm.maxBlocks, dir, pd);
          MarkEntry(ram, pmm.maxBlocks, dir, pd, WithUser(pde));
          DirectoryWords(ram, dir, pd, WithUser(pde));
          StoreDirectory(pd, WithUser(pde));
        }
      }
    }

    method MakeTable(pd: nat, flags: nat) returns (ok: bool)
      requires Ready() && pd < SELF && flags < PAGE_SIZE && !HasTable(ram, dir, pd)
      modifies this`ram, pmm`usedBlocks, pmm.bitmap
      ensures Ready() && pmm.maxBlocks == old(pmm.maxBlocks)
      ensures ok <==> old(pmm.Free()) != {}
      ensures !ok ==> ram == old(ram) && pmm.Used() == old(pmm.Used())
      ensures ok ==> HasTable(ram, dir, pd) && SamePages(old(ram), ram, pmm.maxBlocks, dir)
      ensures ok ==>
        var t := TableFrame(ram, dir, pd);
        t in old(pmm.Free()) && Tables(ram, dir) == old(Tables(ram, dir)) + {t} && pmm.Used() == old(pmm.Used()) + {t}
      ensures ok ==> WordOf(ram, dir, pd) == TableFrame(ram, dir, pd) * 4096 + (if IsUser(flags) then 7 else 3)
      ensures ok && IsUser(flags) ==> IsUser(WordOf(ram, dir, pd))
      ensures UserKept(old(ram), ram, dir)
      ensures OtherFramesSame(old(ram), ram, dir)
    {
      hide Directory, SamePages, OtherFramesSame, Tables, UserKept, IsUser, IsPresent, HasTable, TableFrame, UsedSet;
      DirectoryParts(ram, pmm.maxBlocks, dir);
      SelfSame(ram, dir);
      var newTable := pmm.AllocBlock();
      if newTable == 0 { return false; }
      InstallTable(pd, newTable / PAGE_SIZE, flags);
      ok := true;
    }

    method InstallTable(pd: nat, t: nat, flags: nat)
      requires Directory(ram, pmm.maxBlocks, dir) && pmm.maxBlocks <= 0x8_0000
      requires pd < SELF && !HasTable(ram, dir, pd) && t < pmm.maxBlocks && t != dir && t !in Tables(ram, dir)
      modifies this`ram
      ensures Directory(ram, pmm.maxBlocks, dir) && HasTable(ram, dir, pd) && TableFrame(ram, dir, pd) == t
      ensures WordOf(ram, dir, pd) == t * 4096 + (if IsUser(flags) then 7 else 3)
      ensures SamePages(old(ram), ram, pmm.maxBlocks, dir) && Tables(ram, dir) == Tables(old(ram), dir) + {t}
      ensures IsUser(flags) ==> IsUser(WordOf(ram, dir, pd))
      ensures UserKept(old(ram), ram, dir)
      ensures OtherFramesSame(old(ram), ram, dir)
    {
      TableEntryParts(t, flags);
      ghost var before := ram;
      var entry := t * PAGE_SIZE + PRESENT + WRITABLE + UserBit(flags);
      StoreDirectory(pd, entry);
      DirectoryWords(before, dir, pd, entry);
      ZeroTable(pd);
      NewTable(before, ram, pmm.maxBlocks, dir, pd, entry);
      NewTableFrames(before, ram, dir, pd, entry);
    }

    /** vmm_map_page maps exactly one page and changes no other mapping. Only when a table is
        missing and no frame is left for it does it, silently, map nothing. */
    method MapPage(virt: Word, phys: Word, flags: nat)
      requires Ready() && PdIndex(virt) < SELF && flags < PAGE_SIZE
      modifies this`ram, pmm`usedBlocks, pmm.bitmap
      ensures Ready() && pmm.maxBlocks == old(pmm.maxBlocks)
      ensures !(old(HasTable(ram, dir, PdIndex(virt))) || old(pmm.Free()) != {}) ==>
        ram == old(ram) && pmm.Used() == old(pmm.Used())
      ensures old(HasTable(ram, dir, PdIndex(virt))) || old(pmm.Free()) != {} ==>
        MapsOnly(old(ram), ram, pmm.maxBlocks, dir, PageOf(virt),
                 Some(Mapping(phys / PAGE_SIZE, WithPresent(flags))))
        && FlagsStored(flags, Lookup(ram, pmm.maxBlocks, dir, PageOf(virt)).value.flags)
        && (IsUser(flags) ==> IsUser(WordOf(ram, dir, PdIndex(virt))))
      ensures UserKept(old(ram), ram, dir)
      ensures TablesGrew(old(ram), ram, dir, old(pmm.Used()), pmm.Used(), old(pmm.Free()))
      ensures old(HasTable(ram, dir, PdIndex(virt))) ==> pmm.Used() == old(pmm.Used())
      ensures OtherFramesSame(old(ram), ram, dir)
    {
      hide IsUser, Directory, Lookup, MapsOnly, SamePages, OtherFramesSame, Tables, MappingOf, WithPresent, HasTable;
      hide FlagsStored, UserKept;
      var pdIdx := PdIndex(virt);
      var ptIdx := PtIndex(virt);
      ghost var start := ram;
      var ok := EnsureTable(pdIdx, flags);
      if !ok { return; }
      ghost var before := ram;
      EntryParts(phys, flags);
      PresentStored(flags);
      var entry: Word := phys / PAGE_SIZE * PAGE_SIZE + WithPresent(flags);
      SetEntry(pdIdx, ptIdx, entry);
      PageIndices(virt);
      SameThenMaps(start, before, ram, pmm.maxBlocks, dir, PageOf(virt),
                   Some(Mapping(phys / PAGE_SIZE, WithPresent(flags))));
      OthersThenOthers(start, before, ram, dir);
      UserThenSame(start, before, ram, dir);
      MapsAt(start, ram, pmm.maxBlocks, dir, PageOf(virt), Some(Mapping(phys / PAGE_SIZE, WithPresent(flags))));
    }

    /** One store through the table window. */
    method SetEntry(pd: nat, j: nat, entry: Word)
      requires Directory(ram, pmm.maxBlocks, dir) && pd < SELF && j < ENTRIES && HasTable(ram, dir, pd)
      modifies this`ram
      ensures Directory(ram, pmm.maxBlocks, dir) && Tables(ram, dir) == Tables(old(ram), dir)
      ensures |ram| == |old(ram)| && forall i :: 0 <= i < ENTRIES ==> WordOf(ram, dir, i) == WordOf(old(ram), dir, i)
      ensures UserKept(old(ram), ram, dir)
      ensures MapsOnly(old(ram), ram, pmm.maxBlocks, dir, pd * ENTRIES + j, MappingOf(entry))
      ensures OtherFramesSame(old(ram), ram, dir)
    {
      hide Directory, Lookup, Tables, OtherFramesSame;
      DirectoryParts(ram, pmm.maxBlocks, dir);
      ghost var t := TableFrame(ram, dir, pd);
      StoreEntry(ram, pmm.maxBlocks, dir, pd, j, entry);
      TableWindow(ram, pmm.maxBlocks, dir, pd, j);
      forall page | 0 <= page < SELF * ENTRIES
        ensures Lookup(PutWord(ram, t, j, entry), pmm.maxBlocks, dir, page) ==
          if page == pd * ENTRIES + j then MappingOf(entry) else Lookup(ram, pmm.maxBlocks, dir, page)
      {
        StoreEntryAt(ram, pmm.maxBlocks, dir, pd, j, entry, page);
      }
      SameTables(ram, PutWord(ram, t, j, entry), dir);
      StoreFrames(ram, dir, pd, j, entry);
      Store(TableEntryAddress(pd, j), entry);
    }

    /** vmm_alloc_page backs a page with the least free frame. It returns 0 when no frame is
        free. When the only free frame leaves none for a missing table, it returns the
        address all the same, and that frame is lost. */
    method AllocPage(virt: Word, flags: nat) returns (r: int, ghost f: int)
      requires Ready() && PdIndex(virt) < SELF && flags < PAGE_SIZE
      modifies this`ram, pmm`usedBlocks, pmm.bitmap
      ensures Ready() && pmm.maxBlocks == old(pmm.maxBlocks)
      ensures old(pmm.Free()) == {} ==> r == 0 && Now() == old(Now())
      ensures old(pmm.Free()) != {} ==>
        r == virt && f in old(pmm.Free()) && (forall k :: k in old(pmm.Free()) ==> f <= k)
      ensures old(pmm.Free()) != {} && (old(HasTable(ram, dir, PdIndex(virt))) || Except(old(pmm.Free()), f) != {}) ==>
        PageAdded(old(Now()), PageOf(virt), f, WithPresent(flags), Now())
        && FlagsStored(flags, Lookup(ram, pmm.maxBlocks, dir, PageOf(virt)).value.flags)
        && (IsUser(flags) ==> IsUser(WordOf(ram, dir, PdIndex(virt))))
      ensures old(pmm.Free()) != {} && !(old(HasTable(ram, dir, PdIndex(virt))) || Except(old(pmm.Free()), f) != {}) ==>
        FrameLost(old(Now()), f, Now())
      ensures old(HasTable(ram, dir, PdIndex(virt))) ==> Tables(ram, dir) == old(Tables(ram, dir))
    {
      hide IsUser, Lookup, WithPresent, MapsOnly, OtherFramesSame, Tables, HasTable, UsedSet, FlagsStored, UserKept;
      var phys := pmm.AllocBlock();
      f := phys / PAGE_SIZE;
      if phys == 0 { return 0, f; }
      assert pmm.Free() == Except(old(pmm.Free()), f);
      MapPage(virt, phys, flags);
      r := virt;
    }

    /** vmm_unmap_page removes one mapping and gives its frame back; the page tables stay. */
    method UnmapPage(virt: Word)
      requires Ready() && PdIndex(virt) < SELF
      requires var m := Lookup(ram, pmm.maxBlocks, dir, PageOf(virt));
        m.Some? ==> m.value.frame in pmm.Used() && m.value.frame != 0 && m.value.frame != dir
                    && m.value.frame !in Tables(ram, dir)
      modifies this`ram, pmm`usedBlocks, pmm.bitmap
      ensures Ready() && pmm.maxBlocks == old(pmm.maxBlocks)
      ensures match old(Lookup(ram, pmm.maxBlocks, dir, PageOf(virt)))
        case None => Now() == old(Now())
        case Some(m) => PageRemoved(old(Now()), PageOf(virt), m.frame, Now())
    {
      hide Directory, Lookup, OtherFramesSame;
      PageIndices(virt);
      var found, phys := ClearEntry(virt);
      if found {
        pmm.FreeBlock(phys);
      }
    }

    /** Clears the entry of a mapped page and reports the frame it held. */
    method ClearEntry(virt: Word) returns (found: bool, phys: nat)
      requires Directory(ram, pmm.maxBlocks, dir) && PdIndex(virt) < SELF && PageOf(virt) < SELF * ENTRIES
      modifies this`ram
      ensures Directory(ram, pmm.maxBlocks, dir) && Tables(ram, dir) == Tables(old(ram), dir)
      ensures match Lookup(old(ram), pmm.maxBlocks, dir, PageOf(virt))
        case None => !found && ram == old(ram)
        case Some(m) => found && phys == m.frame * PAGE_SIZE
                        && MapsOnly(old(ram), ram, pmm.maxBlocks, dir, PageOf(virt), None)
      ensures UserKept(old(ram), ram, dir)
      ensures OtherFramesSame(old(ram), ram, dir)
    {
      hide Directory, Lookup, Tables, OtherFramesSame;
      PageIndices(virt);
      DirectoryParts(ram, pmm.maxBlocks, dir);
      LookupWord(ram, pmm.maxBlocks, dir, PageOf(virt));
      SelfSame(ram, dir);
      var pdIdx := PdIndex(virt);
      var ptIdx := PtIndex(virt);
      found, phys := false, 0;
      var pde := LoadDirectory(pdIdx);
      if IsPresent(pde) {
        TableWindow(ram, pmm.maxBlocks, dir, pdIdx, ptIdx);
        var pte := Load(TableEntryAddress(pdIdx, ptIdx));
        if IsPresent(pte) {
          found, phys := true, pte / PAGE_SIZE * PAGE_SIZE;
          SetEntry(pdIdx, ptIdx, 0);
        }
      }
    }

    // ---- Before paging is on: addresses are physical ----

    /** The first `k` pages have been identity-mapped; page 0 never is, and its entry in the
        fresh table, which is not zeroed, is whatever memory held. */
    ghost predicate Booting(k: nat)
      reads this, pmm, pmm.bitmap
    {
      && pmm.Valid() && 0 in pmm.Used() && dir in pmm.Used()
      && Sized(ram, pmm.maxBlocks) && dir < pmm.maxBlocks && 1 <= k <= ENTRIES
      && WordOf(ram, dir, SELF) == dir * PAGE_SIZE + PRESENT + WRITABLE
      && (forall i :: 0 < i < SELF ==> WordOf(ram, dir, i) == 0)
      && if k == 1 then WordOf(ram, dir, 0) == 0
         else HasTable(ram, dir, 0) && WordOf(ram, dir, 0) == TableFrame(ram, dir, 0) * 4096 + 3
              && TableFrame(ram, dir, 0) in pmm.Used() && TableFrame(ram, dir, 0) < pmm.maxBlocks
              && TableFrame(ram, dir, 0) != dir
              && forall p :: 1 <= p < k ==>
                   WordOf(ram, TableFrame(ram, dir, 0), p) == p * PAGE_SIZE + PRESENT + WRITABLE
    }

    /** vmm_early_identity_map of page k, the pages before it being mapped already. */
    method EarlyIdentityMap(k: nat)
      requires Booting(k) && k < ENTRIES
      requires k == 1 ==> pmm.Free() != {}
      modifies this`ram, pmm`usedBlocks, pmm.bitmap
      ensures Booting(k + 1) && pmm.maxBlocks == old(pmm.maxBlocks)
      ensures if k > 1 then pmm.Used() == old(pmm.Used()) && TableFrame(ram, dir, 0) == old(TableFrame(ram, dir, 0))
              else TableFrame(ram, dir, 0) in old(pmm.Free())
                   && pmm.Used() == old(pmm.Used()) + {TableFrame(ram, dir, 0)}
    {
      hide Pmm.Valid, FrameOf, IsWritable, UsedSet;
      var virt := k * PAGE_SIZE;
      var pdIdx, ptIdx := PdIndex(virt), PtIndex(virt);
      assert pdIdx == 0 && ptIdx == k;
      if !IsPresent(WordOf(ram, dir, pdIdx)) {
        FirstTable();
      }
      StoreIdentity(k);
    }

    /** The entry of page k in the first table. */
    method StoreIdentity(k: nat)
      requires Sized(ram, pmm.maxBlocks) && dir < pmm.maxBlocks && 1 <= k < ENTRIES
      requires HasTable(ram, dir, 0) && TableFrame(ram, dir, 0) < pmm.maxBlocks && TableFrame(ram, dir, 0) != dir
      modifies this`ram
      ensures Sized(ram, pmm.maxBlocks)
      ensures forall i :: 0 <= i < ENTRIES ==> WordOf(ram, dir, i) == WordOf(old(ram), dir, i)
      ensures var t := TableFrame(old(ram), dir, 0);
        WordOf(ram, t, k) == k * PAGE_SIZE + PRESENT + WRITABLE
        && forall p :: 0 <= p < ENTRIES && p != k ==> WordOf(ram, t, p) == WordOf(old(ram), t, p)
    {
      var virt := k * PAGE_SIZE;
      var t := FrameOf(WordOf(ram, dir, 0));
      EntryParts(virt, PRESENT + WRITABLE);
      OtherWords(ram, t, k, virt + PRESENT + WRITABLE);
      ram := PutWord(ram, t, k, virt + PRESENT + WRITABLE);
    }

    /** vmm_init: a zeroed directory that names itself, and the first four megabytes, but for
        page 0, mapped to themselves. */
    method Init()
      requires pmm.Valid() && 0 in pmm.Used() && Sized(ram, pmm.maxBlocks)
      requires pmm.Free() != {} && forall f :: f in pmm.Free() ==> Except(pmm.Free(), f) != {}
      modifies this, pmm`usedBlocks, pmm.bitmap
      ensures Ready() && pmm.maxBlocks == old(pmm.maxBlocks)
      ensures dir in old(pmm.Free())
      ensures WordOf(ram, dir, 1023) == dir * 4096 + 3
      ensures WordOf(ram, dir, 0) == TableFrame(ram, dir, 0) * 4096 + 3
      ensures HasTable(ram, dir, 0) && Tables(ram, dir) == {TableFrame(ram, dir, 0)}
      ensures TableFrame(ram, dir, 0) in old(pmm.Free()) && TableFrame(ram, dir, 0) != dir
      ensures pmm.Used() == old(pmm.Used()) + {dir} + {TableFrame(ram, dir, 0)}
      ensures forall p :: 1 <= p < ENTRIES ==> Lookup(ram, pmm.maxBlocks, dir, p) == Some(Mapping(p, 3))
      ensures forall p :: ENTRIES <= p < SELF * ENTRIES ==> Lookup(ram, pmm.maxBlocks, dir, p) == None
    {
      hide Booting, Directory, Lookup, Tables, TableFrame, HasTable, Pmm.Valid, IsPresent;
      MakeDirectory();
      MapKernel();
      BootDone();
    }

    /** With all pages in, paging can be turned on. */
    lemma BootDone()
      requires Booting(ENTRIES)
      ensures pmm.Valid() && 0 in pmm.Used() && dir in pmm.Used() && (dir + 1) * ENTRIES <= |ram|
      ensures Directory(ram, pmm.maxBlocks, dir) && HasTable(ram, dir, 0) && TableFrame(ram, dir, 0) != dir
      ensures Tables(ram, dir) == {TableFrame(ram, dir, 0)} && TableFrame(ram, dir, 0) in pmm.Used()
      ensures WordOf(ram, dir, 1023) == dir * 4096 + 3 && WordOf(ram, dir, 0) == TableFrame(ram, dir, 0) * 4096 + 3
      ensures forall p :: 1 <= p < ENTRIES ==> Lookup(ram, pmm.maxBlocks, dir, p) == Some(Mapping(p, 3))
      ensures forall p :: ENTRIES <= p < SELF * ENTRIES ==> Lookup(ram, pmm.maxBlocks, dir, p) == None
    {
      hide Directory, Lookup, Tables, TableFrame, IsPresent, IsWritable;
      EntryWritable(TableFrame(ram, dir, 0));
      Booted(ram, pmm.maxBlocks, dir);
    }

    /** vmm_map_kernel. */
    method MapKernel()
      requires Booting(1) && pmm.Free() != {}
      modifies this`ram, pmm`usedBlocks, pmm.bitmap
      ensures Booting(ENTRIES) && pmm.maxBlocks == old(pmm.maxBlocks)
      ensures var t := TableFrame(ram, dir, 0); t in old(pmm.Free()) && pmm.Used() == old(pmm.Used()) + {t}
    {
      var k := 1;
      while k < ENTRIES
        invariant 1 <= k <= ENTRIES && Booting(k) && pmm.maxBlocks == old(pmm.maxBlocks)
        invariant k == 1 ==> pmm.Free() == old(pmm.Free()) && pmm.Used() == old(pmm.Used())
        invariant k > 1 ==> var t := TableFrame(ram, dir, 0);
          t in old(pmm.Free()) && pmm.Used() == old(pmm.Used()) + {t}
      {
        EarlyIdentityMap(k);
        k := k + 1;
      }
    }

    /** The directory's frame, zeroed, with its last entry naming itself. */
    method MakeDirectory()
      requires pmm.Valid() && 0 in pmm.Used() && Sized(ram, pmm.maxBlocks)
      requires pmm.Free() != {} && forall f :: f in pmm.Free() ==> Except(pmm.Free(), f) != {}
      modifies this, pmm`usedBlocks, pmm.bitmap
      ensures Booting(1) && pmm.maxBlocks == old(pmm.maxBlocks)
      ensures dir in old(pmm.Free()) && pmm.Free() != {} && pmm.Used() == old(pmm.Used()) + {dir}
      ensures pmm.Free() == Except(old(pmm.Free()), dir)
    {
      var addr := pmm.AllocBlock();
      dir := addr / PAGE_SIZE;
      ClearDirectory(addr);
    }

    /** memset of the directory, and its last entry. */
    method ClearDirectory(addr: nat)
      requires Sized(ram, pmm.maxBlocks) && dir < pmm.maxBlocks <= 0x8_0000 && addr == dir * PAGE_SIZE
      modifies this`ram
      ensures Sized(ram, pmm.maxBlocks) && WordOf(ram, dir, SELF) == dir * PAGE_SIZE + PRESENT + WRITABLE
      ensures forall i :: 0 <= i < SELF ==> WordOf(ram, dir, i) == 0
    {
      ZeroDirectory();
      DirectoryWords(ram, dir, SELF, addr + PRESENT + WRITABLE);
      ram := PutWord(ram, dir, SELF, addr + PRESENT + WRITABLE);
    }

    method ZeroDirectory()
      requires Sized(ram, pmm.maxBlocks) && dir < pmm.maxBlocks
      modifies this`ram
      ensures Sized(ram, pmm.maxBlocks) && forall j :: 0 <= j < ENTRIES ==> WordOf(ram, dir, j) == 0
    {
      for i := 0 to ENTRIES
        invariant Sized(ram, pmm.maxBlocks)
        invariant forall j :: 0 <= j < i ==> WordOf(ram, dir, j) == 0
      {
        DirectoryWords(ram, dir, i, 0);
        ram := PutWord(ram, dir, i, 0);
      }
    }

    method FirstTable()
      requires Booting(1) && pmm.Free() != {}
      modifies this`ram, pmm`usedBlocks, pmm.bitmap
      ensures Sized(ram, pmm.maxBlocks) && pmm.maxBlocks == old(pmm.maxBlocks)
      ensures pmm.Valid() && HasTable(ram, dir, 0) && WordOf(ram, dir, 0) == TableFrame(ram, dir, 0) * 4096 + 3
      ensures var t := TableFrame(ram, dir, 0); t in old(pmm.Free()) && pmm.Used() == old(pmm.Used()) + {t}
      ensures forall i :: 0 < i < ENTRIES ==> WordOf(ram, dir, i) == WordOf(old(ram), dir, i)
    {
      var newTable := pmm.AllocBlock();
      StoreFirstTable(newTable);
    }

    method StoreFirstTable(newTable: nat)
      requires Sized(ram, pmm.maxBlocks) && dir < pmm.maxBlocks
      requires newTable / PAGE_SIZE < 0x8_0000 && newTable == newTable / PAGE_SIZE * PAGE_SIZE
      modifies this`ram
      ensures Sized(ram, pmm.maxBlocks) && HasTable(ram, dir, 0) && TableFrame(ram, dir, 0) == newTable / PAGE_SIZE
      ensures WordOf(ram, dir, 0) == newTable + 3
      ensures forall i :: 0 < i < ENTRIES ==> WordOf(ram, dir, i) == WordOf(old(ram), dir, i)
    {
      TableEntryParts(newTable / PAGE_SIZE, 0);
      DirectoryWords(ram, dir, 0, newTable + PRESENT + WRITABLE);
      ram := PutWord(ram, dir, 0, newTable + PRESENT + WRITABLE);
    }
  }

  /** Once all 1023 pages are in, the page map is the identity on them and empty beyond. */
  lemma Booted(ram: Ram, frames: nat, dir: nat)
    requires Sized(ram, frames) && dir < frames
    requires WordOf(ram, dir, SELF) == dir * PAGE_SIZE + PRESENT + WRITABLE
    requires forall i :: 0 < i < SELF ==> WordOf(ram, dir, i) == 0
    requires HasTable(ram, dir, 0) && TableFrame(ram, dir, 0) < frames && TableFrame(ram, dir, 0) != dir
    requires IsWritable(WordOf(ram, dir, 0))
    requires forall p :: 1 <= p < ENTRIES ==>
      WordOf(ram, TableFrame(ram, dir, 0), p) == p * PAGE_SIZE + PRESENT + WRITABLE
    ensures Directory(ram, frames, dir) && Tables(ram, dir) == {TableFrame(ram, dir, 0)}
    ensures forall p :: 1 <= p < ENTRIES ==> Lookup(ram, frames, dir, p) == Some(Mapping(p, PRESENT + WRITABLE))
    ensures forall p :: ENTRIES <= p < SELF * ENTRIES ==> Lookup(ram, frames, dir, p) == None
  {
    forall i | 0 < i < SELF ensures !HasTable(ram, dir, i) { assert WordOf(ram, dir, i) == 0; }
    OneTable(ram, frames, dir);
    forall p | 1 <= p < ENTRIES ensures Lookup(ram, frames, dir, p) == Some(Mapping(p, PRESENT + WRITABLE)) {
      LookupWord(ram, frames, dir, p);
      PackedEntry(p, PRESENT + WRITABLE);
    }
    forall p | ENTRIES <= p < SELF * ENTRIES ensures Lookup(ram, frames, dir, p) == None {
      LookupWord(ram, frames, dir, p);
    }
  }

  lemma EntryWritable(t: nat)
    ensures IsWritable(t * 4096 + 3)
  {
    PackedEntry(t, 3);
    assert t * 4096 + 3 == 2 * (t * 2048 + 1) + 1;
    HalfOf(t * 4096 + 3, t * 2048 + 1, 1);
    HalfOf(t * 2048 + 1, t * 1024, 1);
  }

  lemma OneTable(ram: Ram, frames: nat, dir: nat)
    requires Sized(ram, frames) && dir < frames
    requires WordOf(ram, dir, SELF) == dir * PAGE_SIZE + PRESENT + WRITABLE
    requires forall i :: 0 < i < SELF ==> !HasTable(ram, dir, i)
    requires HasTable(ram, dir, 0) && TableFrame(ram, dir, 0) < frames && TableFrame(ram, dir, 0) != dir
    requires IsWritable(WordOf(ram, dir, 0))
    ensures Directory(ram, frames, dir) && Tables(ram, dir) == {TableFrame(ram, dir, 0)}
  {
    var t := TableFrame(ram, dir, 0);
    assert t in Tables(ram, dir);
    assert forall f :: f in Tables(ram, dir) ==> f == t;
  }

  /** Looking a page up reads one word of its table. */
  lemma LookupWord(ram: Ram, frames: nat, dir: nat, page: nat)
    requires Directory(ram, frames, dir) && page < SELF * ENTRIES
    ensures var i, j := page / ENTRIES, page % ENTRIES;
      && 0 <= i < SELF && 0 <= j < ENTRIES && (page < ENTRIES ==> i == 0 && j == page) && (page >= ENTRIES ==> i > 0)
      && (HasTable(ram, dir, i) ==> TableFrame(ram, dir, i) < frames && TableFrame(ram, dir, i) != dir)
      && Lookup(ram, frames, dir, page) ==
           if HasTable(ram, dir, i) then MappingOf(WordOf(ram, TableFrame(ram, dir, i), j)) else None
  {
    assert TableOk(ram, frames, dir, page / ENTRIES);
  }

  lemma DirectoryParts(ram: Ram, frames: nat, dir: nat)
    requires Directory(ram, frames, dir)
    ensures Sized(ram, frames) && dir < frames && WordOf(ram, dir, SELF) == dir * PAGE_SIZE + PRESENT + WRITABLE
  {
  }

  lemma OtherWords(ram: Ram, t: nat, j: nat, w: Word)
    requires (t + 1) * ENTRIES <= |ram| && j < ENTRIES
    ensures forall f: nat, i: nat :: (f != t || i != j) && i < ENTRIES && f * ENTRIES + i < |ram| ==>
      WordOf(PutWord(ram, t, j, w), f, i) == WordOf(ram, f, i)
  {
  }

  /** What the frame allocator and the hardware see. */
  datatype View = View(used: set<int>, ram: Ram, frames: nat, dir: nat)

  ghost predicate PageAdded(a: View, page: nat, f: int, flags: nat, b: View) {
    && a.frames == b.frames && a.dir == b.dir && 0 <= f < a.frames && f !in a.used
    && MapsOnly(a.ram, b.ram, a.frames, a.dir, page, Some(Mapping(f, flags)))
    && TablesMore(a, f, b)
    && UserKept(a.ram, b.ram, a.dir) && OtherFramesSame(a.ram, b.ram, a.dir)
  }

  /** Besides the page's own frame at most one frame, for a new table, has been taken. */
  ghost predicate TablesMore(a: View, f: int, b: View)
    requires a.dir == b.dir && (a.dir + 1) * ENTRIES <= |a.ram| == |b.ram|
  {
    || (Tables(b.ram, a.dir) == Tables(a.ram, a.dir) && b.used == a.used + {f})
    || exists t :: t !in a.used && t != f && TookTable(a, f, t, b)
  }

  ghost predicate TookTable(a: View, f: int, t: int, b: View)
    requires a.dir == b.dir && (a.dir + 1) * ENTRIES <= |a.ram| == |b.ram|
  {
    Tables(b.ram, a.dir) == Tables(a.ram, a.dir) + {t} && b.used == a.used + {f} + {t}
  }

  ghost predicate FrameLost(a: View, f: int, b: View) {
    f !in a.used && b == a.(used := a.used + {f})
  }

  ghost predicate PageRemoved(a: View, page: nat, f: int, b: View) {
    && a.frames == b.frames && a.dir == b.dir
    && MapsOnly(a.ram, b.ram, a.frames, a.dir, page, None)
    && Tables(b.ram, a.dir) == Tables(a.ram, a.dir)
    && b.used == Except(a.used, f)
    && UserKept(a.ram, b.ram, a.dir) && OtherFramesSame(a.ram, b.ram, a.dir)
  }

  /** The page map of `ram'` is that of `ram` with one page set to `m`. */
  ghost predicate MapsOnly(ram: Ram, ram': Ram, frames: nat, dir: nat, page: nat, m: Option<Mapping>)
  {
    && Directory(ram, frames, dir) && Directory(ram', frames, dir)
    && forall p :: 0 <= p < SELF * ENTRIES ==>
         Lookup(ram', frames, dir, p) == if p == page then m else Lookup(ram, frames, dir, p)
  }

  lemma SameThenMaps(a: Ram, b: Ram, c: Ram, frames: nat, dir: nat, page: nat, m: Option<Mapping>)
    requires Directory(a, frames, dir) && Directory(b, frames, dir) && SamePages(a, b, frames, dir)
    requires MapsOnly(b, c, frames, dir, page, m)
    ensures MapsOnly(a, c, frames, dir, page, m)
  {
    hide Directory, Lookup;
  }

  lemma MapsAt(ram: Ram, ram': Ram, frames: nat, dir: nat, page: nat, m: Option<Mapping>)
    requires MapsOnly(ram, ram', frames, dir, page, m) && page < SELF * ENTRIES
    ensures Directory(ram', frames, dir) && Lookup(ram', frames, dir, page) == m
  {
    hide Directory, Lookup;
  }

  lemma UserThenSame(a: Ram, b: Ram, c: Ram, dir: nat)
    requires UserKept(a, b, dir) && |c| == |b|
    requires forall i :: 0 <= i < ENTRIES ==> WordOf(c, dir, i) == WordOf(b, dir, i)
    ensures UserKept(a, c, dir)
  {
  }

  lemma OthersThenOthers(a: Ram, b: Ram, c: Ram, dir: nat)
    requires OtherFramesSame(a, b, dir) && OtherFramesSame(b, c, dir) && Tables(c, dir) == Tables(b, dir)
    ensures OtherFramesSame(a, c, dir)
  {
    hide Tables;
  }

  /** At most one new table, in a frame that was free, is all that has been taken. */
  ghost predicate TablesGrew(ram: Ram, ram': Ram, dir: nat, used: set<int>, used': set<int>, free: set<int>)
    requires (dir + 1) * ENTRIES <= |ram| == |ram'|
  {
    || (Tables(ram', dir) == Tables(ram, dir) && used' == used)
    || exists t :: t in free && Tables(ram', dir) == Tables(ram, dir) + {t} && used' == used + {t}
  }

  lemma EntryParts(phys: Word, flags: nat)
    requires flags < PAGE_SIZE
    ensures phys / PAGE_SIZE * PAGE_SIZE + WithPresent(flags) <= FULL
    ensures MappingOf(phys / PAGE_SIZE * PAGE_SIZE + WithPresent(flags)) ==
      Some(Mapping(phys / PAGE_SIZE, WithPresent(flags)))
  {
    PackedEntry(phys / PAGE_SIZE, WithPresent(flags));
  }

  lemma PackedEntry(q: nat, f: nat)
    requires f < PAGE_SIZE
    ensures (q * PAGE_SIZE + f) / PAGE_SIZE == q && (q * PAGE_SIZE + f) % PAGE_SIZE == f
    ensures (q * PAGE_SIZE + f) % 2 == f % 2
  {
  }

  lemma PageIndices(virt: Word)
    requires PdIndex(virt) < SELF
    ensures PdIndex(virt) * ENTRIES + PtIndex(virt) == PageOf(virt) < SELF * ENTRIES
    ensures PageOf(virt) / ENTRIES == PdIndex(virt) && PageOf(virt) % ENTRIES == PtIndex(virt)
  {
  }

  lemma SameTables(ram: Ram, ram': Ram, dir: nat)
    requires (dir + 1) * ENTRIES <= |ram| == |ram'|
    requires forall i :: 0 <= i < ENTRIES ==> WordOf(ram', dir, i) == WordOf(ram, dir, i)
    ensures Tables(ram', dir) == Tables(ram, dir)
  {
    forall i | 0 <= i < SELF
      ensures HasTable(ram', dir, i) == HasTable(ram, dir, i) && TableFrame(ram', dir, i) == TableFrame(ram, dir, i)
    {}
  }

  lemma StoreFrames(ram: Ram, dir: nat, pd: nat, j: nat, entry: Word)
    requires (dir + 1) * ENTRIES <= |ram| && pd < SELF && j < ENTRIES && HasTable(ram, dir, pd)
    requires TableFrame(ram, dir, pd) * ENTRIES + j < |ram|
    requires var ram' := PutWord(ram, TableFrame(ram, dir, pd), j, entry); Tables(ram', dir) == Tables(ram, dir)
    ensures OtherFramesSame(ram, PutWord(ram, TableFrame(ram, dir, pd), j, entry), dir)
  {
    var t := TableFrame(ram, dir, pd);
    assert t in Tables(ram, dir) && (t * ENTRIES + j) / ENTRIES == t;
  }

  lemma SelfSame(ram: Ram, dir: nat)
    requires (dir + 1) * ENTRIES <= |ram|
    ensures OtherFramesSame(ram, ram, dir) && UserKept(ram, ram, dir)
  {
  }

  /** Every frame that holds neither the directory nor a table keeps its words. */
  ghost predicate OtherFramesSame(ram: Ram, ram': Ram, dir: nat)
  {
    |ram'| == |ram| && (dir + 1) * ENTRIES <= |ram|
    && forall k :: 0 <= k < |ram| && k / ENTRIES != dir && k / ENTRIES !in Tables(ram', dir) ==> ram'[k] == ram[k]
  }

  /** A store into the directory changes one of its entries. */
  lemma DirectoryWords(ram: Ram, dir: nat, pd: nat, entry: Word)
    requires (dir + 1) * ENTRIES <= |ram| && pd < ENTRIES
    ensures var ram' := PutWord(ram, dir, pd, entry);
      && (forall i :: 0 <= i < ENTRIES ==> WordOf(ram', dir, i) == if i == pd then entry else WordOf(ram, dir, i))
      && OtherFramesSame(ram, ram', dir)
  {
    assert (dir * ENTRIES + pd) / ENTRIES == dir;
  }

  lemma NewTableFrames(ram: Ram, ram': Ram, dir: nat, pd: nat, entry: Word)
    requires (dir + 1) * ENTRIES <= |ram| && pd < ENTRIES
    requires SameOutside(PutWord(ram, dir, pd, entry), ram', FrameOf(entry))
    requires FrameOf(entry) in Tables(ram', dir)
    ensures OtherFramesSame(ram, ram', dir)
  {
    DirectoryWords(ram, dir, pd, entry);
  }

  lemma KeepsDirectory(ram: Ram, ram': Ram, dir: nat, t: nat, i: nat)
    requires SameOutside(ram, ram', t) && dir != t && (dir + 1) * ENTRIES <= |ram| && i < ENTRIES
    ensures WordOf(ram', dir, i) == WordOf(ram, dir, i)
  {
    assert (dir * ENTRIES + i) / ENTRIES == dir;
  }

  lemma ZeroedOne(ram0: Ram, ram: Ram, ram': Ram, t: nat, j: nat)
    requires SameOutside(ram0, ram, t) && (t + 1) * ENTRIES <= |ram| && j < ENTRIES
    requires ram' == ram[t * ENTRIES + j := 0] && forall i :: 0 <= i < j ==> WordOf(ram, t, i) == 0
    ensures SameOutside(ram0, ram', t) && forall i :: 0 <= i < j + 1 ==> WordOf(ram', t, i) == 0
  {
    assert (t * ENTRIES + j) / ENTRIES == t;
    forall i | 0 <= i < j + 1 ensures WordOf(ram', t, i) == 0 {
      if i < j { assert WordOf(ram, t, i) == 0; }
    }
  }

  /** The entry for a new table: its frame, present, writable, and the caller's user bit. */
  function TableEntry(t: nat, flags: nat): nat { t * PAGE_SIZE + PRESENT + WRITABLE + UserBit(flags) }

  lemma TableEntryParts(t: nat, flags: nat)
    requires t < 0x8_0000
    ensures TableEntry(t, flags) <= FULL && IsPresent(TableEntry(t, flags)) && FrameOf(TableEntry(t, flags)) == t
    ensures IsWritable(TableEntry(t, flags)) && (IsUser(TableEntry(t, flags)) <==> IsUser(flags))
  {
  }

  /** entry | PAGE_USER */
  function WithUser(entry: nat): nat { if IsUser(entry) then entry else entry + USER }

  lemma WithUserParts(entry: Word)
    requires IsPresent(entry)
    ensures WithUser(entry) <= FULL && IsPresent(WithUser(entry)) && FrameOf(WithUser(entry)) == FrameOf(entry)
    ensures IsUser(WithUser(entry)) && (IsWritable(WithUser(entry)) <==> IsWritable(entry))
  {
    LowBits(entry / 8, entry % 8);
    LowBits(entry / 8, entry % 8 + 4);
  }

  /** Three low bits of a word. */
  lemma LowBits(a: nat, b: nat)
    ensures b < 8 ==> (8 * a + b) / PAGE_SIZE == a / 512 && (8 * a + b) % 2 == b % 2 && (8 * a + b) / 4 % 2 == b / 4
    ensures b < 8 ==> (8 * a + b) / 2 % 2 == b / 2 % 2
  {
    if b < 8 {
      PackedEntry(a / 512, 8 * (a % 512) + b);
      HalfOf(8 * a + b, 4 * a + b / 2, b % 2);
      HalfOf(8 * a + b, 4 * a + b / 2, b % 2);
      HalfOf(4 * a + b / 2, 2 * a + b / 4, b / 2 % 2);
      QuarterOf(8 * a + b, 2 * a + b / 4, b % 4);
      HalfOf(2 * a + b / 4, a, b / 4);
    }
  }
}
