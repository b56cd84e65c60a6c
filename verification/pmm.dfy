/** The physical memory manager: one bit a frame, and a separate count of the used ones. */
module Pmm {
  import opened Bits
  import opened Collections

  const BLOCK_SIZE := 4096

  ghost predicate IsUsed(words: seq<Word>, f: nat)
    requires f < |words| * 32
  {
    Bit(words[f / 32], f % 32)
  }

  /** The used frames below `max`. */
  ghost function UsedSet(words: seq<Word>, max: nat): set<int>
    requires max <= |words| * 32
  {
    set f | 0 <= f < max && IsUsed(words, f)
  }

  lemma SetFrame(words: seq<Word>, max: nat, f: nat)
    requires max <= |words| * 32 && f < max
    ensures SetBit(words[f / 32], f % 32) <= FULL
    ensures UsedSet(words[f / 32 := SetBit(words[f / 32], f % 32)], max) == UsedSet(words, max) + {f}
  {
    WordBits(words[f / 32], f % 32);
    var m := words[f / 32 := SetBit(words[f / 32], f % 32)];
    forall k | 0 <= k < max ensures IsUsed(m, k) <==> IsUsed(words, k) || k == f {
      SetBitAt(words[f / 32], f % 32, k % 32);
    }
  }

  lemma ClearFrame(words: seq<Word>, max: nat, f: nat)
    requires max <= |words| * 32 && f < max
    ensures ClearBit(words[f / 32], f % 32) <= FULL
    ensures UsedSet(words[f / 32 := ClearBit(words[f / 32], f % 32)], max) == UsedSet(words, max) - {f}
  {
    WordBits(words[f / 32], f % 32);
    var m := words[f / 32 := ClearBit(words[f / 32], f % 32)];
    forall k | 0 <= k < max ensures IsUsed(m, k) <==> IsUsed(words, k) && k != f {
      ClearBitAt(words[f / 32], f % 32, k % 32);
    }
  }

  /** The members of `s` that are not in [lo, hi). */
  ghost function Outside(s: set<int>, lo: int, hi: int): set<int> { set f | f in s && !Within(lo, f, hi) }

  lemma OutsideNext(s: set<int>, lo: int, hi: int)
    requires lo <= hi
    ensures Outside(s, lo, hi) - {hi} == Outside(s, lo, hi + 1)
    ensures Outside(s, lo, lo) == s
  {
  }

  lemma TakenNone(used: set<int>, lo: int)
    ensures used + Interval(lo, lo) == used
  {
  }

  lemma TakenNext(used: set<int>, lo: int, hi: int)
    requires lo <= hi
    ensures used + Interval(lo, hi) + {hi} == used + Interval(lo, hi + 1)
  {
    IntervalNext(lo, hi);
  }

  ghost function Except<T>(s: set<T>, x: T): set<T> { set y | y in s && y != x }

  ghost function FreeOf(scanned: nat, used: set<int>): set<int> { set f | 0 <= f < scanned && f !in used }

  lemma FreeTaken(scanned: nat, used: set<int>, f: int)
    ensures FreeOf(scanned, used + {f}) == Except(FreeOf(scanned, used), f)
  {
  }

  // ---- Filling the bitmap ----

  /** Byte k of a word set to 0xFF. */
  function FillByte(w: nat, k: nat): nat { SetBits(w, k * 8, 8) }

  lemma FillBounds(w: Word, k: nat)
    requires k < 4
    ensures FillByte(w, k) <= FULL
    ensures forall j :: 0 <= j < 32 ==> (Bit(FillByte(w, k), j) <==> Bit(w, j) || k * 8 <= j < k * 8 + 8)
  {
    FullPow();
    SetBitsBound(w, k * 8, 8, 32);
    forall j | 0 <= j < 32 ensures Bit(FillByte(w, k), j) <==> Bit(w, j) || k * 8 <= j < k * 8 + 8 {
      SetBitsAt(w, k * 8, 8, j);
    }
  }

  /** The bits of the first n bytes are set, the others are as they were. */
  ghost predicate Filled(before: seq<Word>, after: seq<Word>, n: nat) {
    |after| == |before| && forall f: nat :: f < |before| * 32 ==> (IsUsed(after, f) <==> f < n * 8 || IsUsed(before, f))
  }

  lemma FilledNone(words: seq<Word>)
    ensures Filled(words, words, 0)
  {
  }

  lemma FilledNext(before: seq<Word>, words: seq<Word>, b: nat)
    requires b < |words| * 4 && Filled(before, words, b)
    ensures FillByte(words[b / 4], b % 4) <= FULL
    ensures Filled(before, words[b / 4 := FillByte(words[b / 4], b % 4)], b + 1)
  {
    FillBounds(words[b / 4], b % 4);
    var after := words[b / 4 := FillByte(words[b / 4], b % 4)];
    forall f: nat | f < |before| * 32 ensures IsUsed(after, f) <==> f < (b + 1) * 8 || IsUsed(before, f) {
      BitOfByte(f, b);
      assert IsUsed(words, f) <==> f < b * 8 || IsUsed(before, f);
      if f / 32 == b / 4 {
        var j := f % 32;
        assert Bit(FillByte(words[b / 4], b % 4), j) <==> Bit(words[b / 4], j) || b % 4 * 8 <= j < b % 4 * 8 + 8;
      }
    }
  }

  /** Bit f is in byte b exactly when it is in that byte of the byte's word. */
  lemma BitOfByte(f: nat, b: nat)
    ensures b * 8 <= f < b * 8 + 8 <==> f / 32 == b / 4 && b % 4 * 8 <= f % 32 < b % 4 * 8 + 8
  {
  }

  /** The frames of [lo, hi) whose bits were set. */
  ghost function LeftUsed(words: seq<Word>, lo: nat, hi: nat): set<int>
    requires hi <= |words| * 32
  {
    set f | lo <= f < hi && IsUsed(words, f)
  }

  lemma InitUsed(before: seq<Word>, after: seq<Word>, max: nat)
    requires max <= |before| * 32 && Filled(before, after, max / 8)
    ensures UsedSet(after, max) == Interval(0, max / 8 * 8) + LeftUsed(before, max / 8 * 8, max)
    ensures UsedSet(after, max) == Interval(0, max) <==>
      LeftUsed(before, max / 8 * 8, max) == Interval(max / 8 * 8, max)
  {
    var lo := max / 8 * 8;
    var used, left := UsedSet(after, max), LeftUsed(before, lo, max);
    assert used == Interval(0, lo) + left;
    if used == Interval(0, max) {
      forall f | lo <= f < max ensures f in left {
        assert Within(0, f, max);
        assert f in used;
      }
      assert left == Interval(lo, max);
    }
    if left == Interval(lo, max) {
      forall f | 0 <= f < max ensures f in used { assert Within(0, f, lo) || Within(lo, f, max); }
      assert used == Interval(0, max);
    }
  }

  /** A set of frames below `max` has `max` members only if it has all of them. */
  lemma AllCounted(used: set<int>, max: nat)
    requires forall f :: f in used ==> 0 <= f < max
    ensures |used| == max <==> used == Interval(0, max)
  {
    IntervalCount(0, max);
    if used != Interval(0, max) {
      var f :| f in Interval(0, max) && f !in used;
      SubsetCount(used, Interval(0, max) - {f});
    }
  }

  class Pmm {
    var memorySize: nat
    var usedBlocks: nat
    var maxBlocks: nat
    const bitmap: array<Word>

    /** The bitmap covers the blocks; memory is below 2 GB; the count is the number of set bits. */
    ghost predicate Valid()
      reads this, bitmap
    {
      && maxBlocks <= 0x8_0000 && maxBlocks <= bitmap.Length * 32
      && usedBlocks == |Used()|
    }

    ghost function Used(): set<int>
      reads this, bitmap
      requires maxBlocks <= bitmap.Length * 32
    {
      UsedSet(bitmap[..], maxBlocks)
    }

    /** The frames the scan looks at: it ignores a last, partial word. */
    ghost function Scanned(): nat
      reads this
    {
      maxBlocks / 32 * 32
    }

    /** The free frames that allocation can find. */
    ghost function Free(): set<int>
      reads this, bitmap
      requires maxBlocks <= bitmap.Length * 32
    {
      FreeOf(Scanned(), Used())
    }

    constructor (words: array<Word>)
      ensures bitmap == words
    {
      bitmap := words;
      memorySize, usedBlocks, maxBlocks := 0, 0, 0;
    }

    /** pmmngr_init: `memSize` kilobytes, all of it in use by the count. The bitmap is filled
        by whole bytes, so the bits of the last few frames are left as they were; the count
        is right exactly when those were set already. */
    method Init(memSize: nat)
      requires memSize / 4 <= bitmap.Length * 32 && memSize / 4 <= 0x8_0000
      modifies this, bitmap
      ensures maxBlocks == memSize / 4 && usedBlocks == maxBlocks
      ensures Used() == Interval(0, maxBlocks / 8 * 8) + LeftUsed(old(bitmap[..]), maxBlocks / 8 * 8, maxBlocks)
      ensures Valid() <==> Used() == Interval(0, maxBlocks)
      ensures Valid() <==>
        LeftUsed(old(bitmap[..]), maxBlocks / 8 * 8, maxBlocks) == Interval(maxBlocks / 8 * 8, maxBlocks)
    {
      memorySize := memSize;
      maxBlocks := memorySize / 4;
      usedBlocks := maxBlocks;
      FillBytes(maxBlocks / 8);
      AllCounted(Used(), maxBlocks);
      InitUsed(old(bitmap[..]), bitmap[..], maxBlocks);
    }

    /** memset of the first n bytes to 0xFF. */
    method FillBytes(n: nat)
      requires n <= bitmap.Length * 4
      modifies bitmap
      ensures Filled(old(bitmap[..]), bitmap[..], n)
    {
      FilledNone(bitmap[..]);
      for b := 0 to n
        invariant Filled(old(bitmap[..]), bitmap[..], b)
      {
        ghost var before := bitmap[..];
        FillBounds(bitmap[b / 4], b % 4);
        bitmap[b / 4] := FillByte(bitmap[b / 4], b % 4);
        assert bitmap[..] == before[b / 4 := bitmap[b / 4]];
        FilledNext(old(bitmap[..]), before, b);
      }
    }

    method MmapSet(f: nat)
      requires maxBlocks <= bitmap.Length * 32 && f < maxBlocks
      modifies bitmap
      ensures Used() == old(Used()) + {f}
    {
      SetFrame(bitmap[..], maxBlocks, f);
      bitmap[f / 32] := SetBit(bitmap[f / 32], f % 32);
      assert bitmap[..] == old(bitmap[..])[f / 32 := bitmap[f / 32]];
    }

    method MmapUnset(f: nat)
      requires maxBlocks <= bitmap.Length * 32 && f < maxBlocks
      modifies bitmap
      ensures Used() == old(Used()) - {f}
    {
      ClearFrame(bitmap[..], maxBlocks, f);
      bitmap[f / 32] := ClearBit(bitmap[f / 32], f % 32);
      assert bitmap[..] == old(bitmap[..])[f / 32 := bitmap[f / 32]];
    }

    method MmapTest(f: nat) returns (used: bool)
      requires maxBlocks <= bitmap.Length * 32 && f < maxBlocks
      ensures used <==> f in Used()
      ensures Pow2(f % 32) > 0 && (used <==> bitmap[f / 32] / Pow2(f % 32) % 2 == 1)
    {
      BitIs(bitmap[f / 32], f % 32);
      used := Bit(bitmap[f / 32], f % 32);
    }

    /** mmap_first_free: the least free frame, or -1. */
    method FirstFree() returns (frame: int)
      requires maxBlocks <= bitmap.Length * 32
      ensures frame == -1 <==> Free() == {}
      ensures frame != -1 ==> frame in Free() && forall f :: f in Free() ==> frame <= f
    {
      ghost var m := bitmap[..];
      for i := 0 to maxBlocks / 32
        invariant forall f :: 0 <= f < i * 32 ==> IsUsed(m, f)
      {
        WordBits(bitmap[i], 0);
        if bitmap[i] != FULL {
          for j := 0 to 32
            invariant forall f :: 0 <= f < i * 32 + j ==> IsUsed(m, f)
          {
            assert (i * 32 + j) / 32 == i && (i * 32 + j) % 32 == j;
            if !Bit(bitmap[i], j) {
              assert !IsUsed(m, i * 32 + j);
              assert i * 32 + j in Free();
              return i * 32 + j;
            }
          }
        }
        forall f | i * 32 <= f < i * 32 + 32 ensures IsUsed(m, f) {
          assert f / 32 == i;
        }
      }
      return -1;
    }

    /** Frees one frame; it counts only if it was in use. */
    method ReleaseOne(f: nat)
      requires Valid() && f < maxBlocks
      modifies this`usedBlocks, bitmap
      ensures Valid() && maxBlocks == old(maxBlocks) && Used() == old(Used()) - {f}
    {
      Counts(Used(), f);
      var used := MmapTest(f);
      if used { usedBlocks := usedBlocks - 1; }
      MmapUnset(f);
    }

    /** Takes one frame; it counts only if it was free. */
    method TakeOne(f: nat)
      requires Valid() && f < maxBlocks
      modifies this`usedBlocks, bitmap
      ensures Valid() && maxBlocks == old(maxBlocks) && Used() == old(Used()) + {f}
    {
      Counts(Used(), f);
      var used := MmapTest(f);
      if !used { usedBlocks := usedBlocks + 1; }
      MmapSet(f);
    }

    /** pmmngr_init_region frees exactly the frames of the region, whatever they were. */
    method InitRegion(base: nat, size: nat)
      requires Valid() && base / BLOCK_SIZE + size / BLOCK_SIZE <= maxBlocks
      modifies this`usedBlocks, bitmap
      ensures Valid() && maxBlocks == old(maxBlocks)
      ensures Used() == Outside(old(Used()), base / BLOCK_SIZE, base / BLOCK_SIZE + size / BLOCK_SIZE)
      ensures forall f :: f in Used() <==> f in old(Used()) && !(base / 4096 <= f < base / 4096 + size / 4096)
    {
      FreeFrames(base / BLOCK_SIZE, size / BLOCK_SIZE);
    }

    method FreeFrames(start: nat, count: nat)
      requires Valid() && start + count <= maxBlocks
      modifies this`usedBlocks, bitmap
      ensures Valid() && maxBlocks == old(maxBlocks)
      ensures Used() == Outside(old(Used()), start, start + count)
    {
      var align, blocks := start, count;
      ghost var before := Used();
      OutsideNext(before, start, start);
      while blocks > 0
        invariant Valid() && maxBlocks == old(maxBlocks)
        invariant align + blocks == start + count && start <= align
        invariant Used() == Outside(before, start, align)
      {
        OutsideNext(before, start, align);
        ReleaseOne(align);
        align := align + 1;
        blocks := blocks - 1;
      }
    }

    /** pmmngr_deinit_region takes exactly the frames of the region, whatever they were. */
    method DeinitRegion(base: nat, size: nat)
      requires Valid() && base / BLOCK_SIZE + size / BLOCK_SIZE <= maxBlocks
      modifies this`usedBlocks, bitmap
      ensures Valid() && maxBlocks == old(maxBlocks)
      ensures Used() == old(Used()) + Interval(base / BLOCK_SIZE, base / BLOCK_SIZE + size / BLOCK_SIZE)
      ensures forall f :: f in Used() <==> f in old(Used()) || base / 4096 <= f < base / 4096 + size / 4096
    {
      TakeFrames(base / BLOCK_SIZE, size / BLOCK_SIZE);
    }

    method TakeFrames(start: nat, count: nat)
      requires Valid() && start + count <= maxBlocks
      modifies this`usedBlocks, bitmap
      ensures Valid() && maxBlocks == old(maxBlocks)
      ensures Used() == old(Used()) + Interval(start, start + count)
    {
      hide Interval;
      var align, blocks := start, count;
      ghost var before := Used();
      TakenNone(before, start);
      while blocks > 0
        invariant Valid() && maxBlocks == old(maxBlocks)
        invariant align + blocks == start + count && start <= align
        invariant Used() == before + Interval(start, align)
      {
        TakenNext(before, start, align);
        TakeOne(align);
        align := align + 1;
        blocks := blocks - 1;
      }
    }

    /** pmmngr_alloc_block takes the least free frame. The address it returns is 0 when no
        frame was found, but also when frame 0 was the one taken. */
    method AllocBlock() returns (addr: int)
      requires Valid()
      modifies this`usedBlocks, bitmap
      ensures Valid() && maxBlocks == old(maxBlocks)
      ensures old(Free()) == {} ==> addr == 0 && Used() == old(Used())
      ensures old(Free()) != {} ==> Free() == Except(old(Free()), addr / BLOCK_SIZE)
      ensures old(Free()) != {} ==>
        var f := addr / BLOCK_SIZE;
        addr == f * BLOCK_SIZE && f in old(Free()) && (forall k :: k in old(Free()) ==> f <= k)
        && Used() == old(Used()) + {f} && usedBlocks == old(usedBlocks) + 1
      ensures Used() == old(Used()) ==> forall k :: 0 <= k < maxBlocks / 32 * 32 ==> k in old(Used())
      ensures Used() != old(Used()) ==>
        addr % 4096 == 0 && 0 <= addr / 4096 < maxBlocks / 32 * 32 && addr / 4096 !in old(Used())
        && forall k :: 0 <= k < addr / 4096 ==> k in old(Used())
    {
      FreeMeans();
      if maxBlocks - usedBlocks == 0 {
        AllUsed();
        return 0;
      }
      var frame := FirstFree();
      if frame == -1 { return 0; }
      FreeTaken(Scanned(), Used(), frame);
      MmapSet(frame);
      usedBlocks := usedBlocks + 1;
      addr := frame * BLOCK_SIZE;
    }

    lemma FreeMeans()
      requires Valid()
      ensures forall k :: k in Free() <==> 0 <= k < maxBlocks / 32 * 32 && k !in Used()
    {
    }

    lemma AllUsed()
      requires Valid() && usedBlocks == maxBlocks
      ensures Free() == {}
    {
      IntervalCount(0, maxBlocks);
      if Free() != {} {
        var f :| f in Free();
        var rest := Interval(0, maxBlocks) - {f};
        assert Used() <= rest;
        SubsetCount(Used(), rest);
      }
    }

    /** pmmngr_free_block gives back a frame that is in use. */
    method FreeBlock(addr: nat)
      requires Valid() && addr / BLOCK_SIZE in Used()
      modifies this`usedBlocks, bitmap
      ensures Valid() && maxBlocks == old(maxBlocks)
      ensures Used() == Except(old(Used()), addr / BLOCK_SIZE) && usedBlocks == old(usedBlocks) - 1
    {
      var frame := addr / BLOCK_SIZE;
      MmapUnset(frame);
      usedBlocks := usedBlocks - 1;
    }
  }

  lemma Counts<T>(a: set<T>, x: T)
    ensures x in a ==> a + {x} == a && |a - {x}| == |a| - 1
    ensures x !in a ==> a - {x} == a && |a + {x}| == |a| + 1
  {
  }
}
