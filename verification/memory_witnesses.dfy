/** A machine small enough to run out of frames. */
module MemoryWitnesses {
  import opened Bits
  import opened Collections
  import opened FrameOwnership
  import opened Paging
  import opened Pmm
  import opened Vmm

  /** The frames of the memory map below. */
  const OFFERED: set<int> := {1, 2, 3}

  /** 64 frames, of which the memory map offers three. */
  method SmallMemory() returns (pmm: Pmm)
    ensures fresh(pmm) && fresh(pmm.bitmap) && pmm.Valid() && pmm.maxBlocks == 64
    ensures pmm.Free() == OFFERED && 0 in pmm.Used()
  {
    hide UsedSet, FreeOf, Outside, LeftUsed, Interval;
    var words := new Word[2](_ => 0);
    pmm := new Pmm(words);
    ghost var before := words[..];
    pmm.Init(256);
    NothingLeft(before);
    assert pmm.Valid();
    pmm.InitRegion(4096, 3 * 4096);
    Offers(pmm.Used());
  }

  /** 33 frames: the last lies in a byte of its own, which pmmngr_init does not fill. The counter
      says 33 frames are used, but frame 32 is not. */
  method OddFrame() returns (pmm: Pmm)
    ensures fresh(pmm) && pmm.bitmap.Length == 2 && pmm.maxBlocks == 33 && pmm.usedBlocks == 33
    ensures 32 !in pmm.Used() && !pmm.Valid()
  {
    var words := new Word[2](_ => 0);
    pmm := new Pmm(words);
    ghost var before := words[..];
    pmm.Init(132);
    OneLeft33(before);
  }

  lemma OneLeft33(words: seq<Word>)
    requires |words| == 2 && words[1] == 0
    ensures 32 !in LeftUsed(words, 32, 33) && 33 / 8 * 8 == 32
    ensures 32 !in Interval(0, 32) && 32 in Interval(32, 33)
  {
    assert !Within(0, 32, 32) && Within(32, 32, 33);
  }

  lemma NothingLeft(words: seq<Word>)
    requires |words| == 2
    ensures LeftUsed(words, 64, 64) == {} && Interval(64, 64) == {} && 64 / 8 * 8 == 64
  {
  }

  lemma Offers(used: set<int>)
    requires used == Outside(Interval(0, 64), 1, 4)
    ensures FreeOf(64, used) == OFFERED && 0 in used
  {
    forall f ensures f in FreeOf(64, used) <==> f in OFFERED {
      assert Within(1, f, 4) <==> f in OFFERED;
      assert f in used <==> Within(0, f, 64) && !Within(1, f, 4);
    }
    assert Within(0, 0, 64) && !Within(1, 0, 4);
  }

  /** With paging on, one frame is left; the page asked for has no table, so the allocation
      succeeds by its return value and has lost the frame. */
  method LastFrameLost() returns (vm: Vmm, r: int, ghost before: View, ghost reserved: set<int>, ghost f: int)
    ensures fresh(vm) && vm.Ready() && r == 0x40_0000 && FrameLost(before, f, vm.Now())
    ensures Owns(before, reserved, map[])
    ensures FreeOf(64, before.used) == {f} && vm.pmm.Free() == {}
  {
    hide Owns, Lookup, UsedSet, PageAdded, SameTable;
    var pmm := SmallMemory();
    vm := new Vmm(pmm, seq(64 * ENTRIES, _ => 0));
    TwoMore(OFFERED, 1, 2, 3);
    reserved := pmm.Used();
    Boot(vm);
    before := vm.Now();
    ghost var table := TableFrame(vm.ram, vm.dir, 0);
    OneLeft(reserved, vm.dir, table);
    OnlyTable(vm.ram, pmm.maxBlocks, vm.dir, 1);
    assert PdIndex(0x40_0000) == 1;
    r, f := vm.AllocPage(0x40_0000, PRESENT + WRITABLE + USER);
    FreeTaken(64, before.used, f);
  }

  /** Of three free frames the directory and the first table leave one. */
  lemma OneLeft(used: set<int>, dir: int, table: int)
    requires FreeOf(64, used) == OFFERED && dir in OFFERED && table in OFFERED && dir != table
    ensures FreeOf(64, used + {dir} + {table}) == {6 - dir - table}
    ensures Except({6 - dir - table}, 6 - dir - table) == {}
  {
    forall f ensures f in FreeOf(64, used + {dir} + {table}) <==> f in OFFERED && f != dir && f != table {
      assert f in FreeOf(64, used) <==> f in OFFERED;
    }
  }

  lemma OnlyTable(ram: Ram, frames: nat, dir: nat, i: nat)
    requires Directory(ram, frames, dir) && 0 < i < SELF
    requires HasTable(ram, dir, 0) && Tables(ram, dir) == {TableFrame(ram, dir, 0)}
    ensures !HasTable(ram, dir, i)
  {
    forall j | 0 <= j < SELF && HasTable(ram, dir, j) ensures SameTable(ram, dir, 0, j) {
      assert TableFrame(ram, dir, j) in Tables(ram, dir);
    }
  }

  lemma TwoMore(s: set<int>, a: int, b: int, c: int)
    requires s == {a, b, c} && a != b && b != c && a != c
    ensures s != {} && forall f :: f in s ==> Except(s, f) != {}
  {
    forall f | f in s ensures Except(s, f) != {} {
      assert (if f == a then b else a) in Except(s, f);
    }
  }
}
