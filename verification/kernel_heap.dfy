/** The kernel heap as its callers use it: what they hold, and which lists of blocks they
    leave behind. */
module KernelHeap {
  import opened Heap

  /** kmalloc finds a block of n bytes. */
  predicate HasBlock(blocks: seq<Block>, n: int) { FirstFit(blocks, n) < |blocks| }

  /** The block that kmalloc grants, and the list it leaves. */
  function Granted(blocks: seq<Block>, n: int): Grant
    requires HasBlock(blocks, n)
  {
    var b := blocks[FirstFit(blocks, n)];
    Grant(b.addr, GrantedSize(b, n))
  }

  function Taken(blocks: seq<Block>, n: int): seq<Block>
    requires HasBlock(blocks, n)
  {
    Allocated(blocks, FirstFit(blocks, n), n)
  }

  lemma TakenLive(blocks: seq<Block>, n: int, lo: int, hi: int)
    requires Canonical(blocks, lo, hi) && HasBlock(blocks, n) && 0 <= n
    ensures Canonical(Taken(blocks, n), lo, hi) && lo <= Granted(blocks, n).addr && Granted(blocks, n).size >= n
    ensures Granted(blocks, n) !in Live(blocks) && Live(Taken(blocks, n)) == Live(blocks) + {Granted(blocks, n)}
  {
    var k := FirstFit(blocks, n);
    AllocatedKeeps(blocks, k, n, lo, hi);
    AllocatedLive(blocks, k, n, lo, hi);
    Below(blocks, lo, hi, k);
  }

  /** kmalloc of a block that is then live. */
  method KmallocLive(heap: Heap, n: nat) returns (p: int)
    requires heap.Valid() && n < WORD
    modifies heap
    ensures heap.Valid()
    ensures p != 0 <==> HasBlock(old(heap.blocks), n)
    ensures p == 0 ==> heap.blocks == old(heap.blocks)
    ensures p != 0 ==> heap.blocks == Taken(old(heap.blocks), n) && p == Granted(old(heap.blocks), n).addr + HEADER_SIZE
    ensures p != 0 ==> 0 < Granted(old(heap.blocks), n).addr && Granted(old(heap.blocks), n).size >= n
    ensures p != 0 ==> Granted(old(heap.blocks), n) !in Live(old(heap.blocks))
                       && Live(heap.blocks) == Live(old(heap.blocks)) + {Granted(old(heap.blocks), n)}
  {
    ghost var before := heap.blocks;
    p := heap.Kmalloc(n);
    if p != 0 { TakenLive(before, n, heap.start, heap.start + HEAP_SIZE); }
  }

  /** kfree of a block that is known to be live. */
  method KfreeLive(heap: Heap, p: int, ghost g: Grant)
    requires heap.Valid() && g in Live(heap.blocks) && g.addr + HEADER_SIZE == p && 0 < g.addr
    modifies heap
    ensures heap.Valid() && Live(heap.blocks) == Live(old(heap.blocks)) - {g}
  {
    ghost var before := heap.blocks;
    heap.Kfree(p);
    ghost var h :| h in Live(before) && h.addr + HEADER_SIZE == p && Live(heap.blocks) == Live(before) - {h};
    GrantAt(before, heap.start, heap.start + HEAP_SIZE, g, h);
  }

  /** With the same blocks live the block list is the same. */
  lemma SameLive(heap: Heap, before: seq<Block>)
    requires heap.Valid() && Canonical(before, heap.start, heap.start + HEAP_SIZE)
    requires Live(heap.blocks) == Live(before)
    ensures heap.blocks == before
  {
    CanonicalUnique(heap.blocks, before, heap.start, heap.start + HEAP_SIZE);
  }

  lemma HeapCanonical(heap: Heap)
    requires heap.Valid()
    ensures Canonical(heap.blocks, heap.start, heap.start + HEAP_SIZE)
  {
  }

  // ---- Walking with two blocks ----

  /** Whether n blocks of a size can be taken in turn when each is given back as soon as the
      next is there: room for two is enough, however many they are. */
  predicate RoomInTurn(blocks: seq<Block>, size: int, n: nat) {
    && (n >= 1 ==> HasBlock(blocks, size))
    && (n >= 2 ==> HasBlock(Taken(blocks, size), size))
  }

  /** The n-th block taken so: the first and the second place take turns. */
  function HeldInTurn(blocks: seq<Block>, size: int, n: nat): Grant
    requires n >= 1 && RoomInTurn(blocks, size, n)
  {
    if n % 2 == 1 then Granted(blocks, size) else Granted(Taken(blocks, size), size)
  }

  /** The list while the n-th is held and the others have been given back. */
  function AfterTurns(blocks: seq<Block>, size: int, n: nat): seq<Block>
    requires RoomInTurn(blocks, size, n)
  {
    if n == 0 then blocks
    else if n % 2 == 1 then Taken(blocks, size)
    else FirstBack(blocks, size)
  }

  /** Two blocks taken and the first of them given back. */
  function FirstBack(blocks: seq<Block>, size: int): seq<Block>
    requires HasBlock(blocks, size) && HasBlock(Taken(blocks, size), size)
  {
    var both := Taken(Taken(blocks, size), size);
    AllocatedAt(blocks, FirstFit(blocks, size), size, FirstFit(blocks, size));
    Freed(both, FirstFit(blocks, size))
  }

  lemma FirstStays(blocks: seq<Block>, size: int)
    requires HasBlock(blocks, size) && HasBlock(Taken(blocks, size), size)
    ensures var k := FirstFit(blocks, size); var both := Taken(Taken(blocks, size), size);
      && k < FirstFit(Taken(blocks, size), size) && k < |both|
      && !both[k].isFree && GrantOf(both[k]) == Granted(blocks, size)
      && (forall i :: 0 <= i < k ==> both[i] == blocks[i])
  {
    var one := Taken(blocks, size);
    var k, j := FirstFit(blocks, size), FirstFit(one, size);
    forall i | 0 <= i <= k ensures one[i] == if i < k then blocks[i] else Carved(blocks[k], size)[0] {
      AllocatedAt(blocks, k, size, i);
    }
    assert k < j;
    forall i | 0 <= i <= k ensures Taken(one, size)[i] == one[i] { AllocatedAt(one, j, size, i); }
  }

  lemma FirstBackLive(blocks: seq<Block>, size: int, lo: int, hi: int)
    requires Canonical(blocks, lo, hi) && 0 <= size && HasBlock(blocks, size) && HasBlock(Taken(blocks, size), size)
    ensures Canonical(FirstBack(blocks, size), lo, hi)
    ensures Live(FirstBack(blocks, size)) == Live(blocks) + {Granted(Taken(blocks, size), size)}
  {
    hide Canonical, Taken, Granted, HasBlock;
    var one := Taken(blocks, size);
    TakenLive(blocks, size, lo, hi);
    TakenLive(one, size, lo, hi);
    FirstStays(blocks, size);
    FreedKeeps(Taken(one, size), FirstFit(blocks, size), lo, hi);
  }

  /** What lies behind the first of two blocks taken: a free rest of the block they were cut
      from, or a block that is not free. */
  lemma BehindFirst(blocks: seq<Block>, size: int, lo: int, hi: int)
    requires Canonical(blocks, lo, hi) && 0 <= size && HasBlock(blocks, size) && HasBlock(Taken(blocks, size), size)
    ensures var k := FirstFit(blocks, size); var both := Taken(Taken(blocks, size), size);
      k + 1 < |both| && both[k + 1].isFree ==>
        Splits(blocks[k], size) && both[k + 1].size == blocks[k].size - size - HEADER_SIZE
  {
    var one := Taken(blocks, size);
    var k, j := FirstFit(blocks, size), FirstFit(one, size);
    FirstStays(blocks, size);
    var next := k + 1;
    if next < |Taken(one, size)| {
      AllocatedAt(one, j, size, next);
      if next < |one| { AllocatedAt(blocks, k, size, next); }
    }
  }

  /** Then the first place is again the first that fits. */
  lemma FirstBackFits(blocks: seq<Block>, size: int, lo: int, hi: int)
    requires Canonical(blocks, lo, hi) && 0 <= size && HasBlock(blocks, size) && HasBlock(Taken(blocks, size), size)
    ensures HasBlock(FirstBack(blocks, size), size)
    ensures Granted(FirstBack(blocks, size), size) == Granted(blocks, size)
  {
    var k, both := FirstFit(blocks, size), Taken(Taken(blocks, size), size);
    FirstStays(blocks, size);
    BehindFirst(blocks, size, lo, hi);
    var back := FirstBack(blocks, size);
    assert k > 0 ==> !both[k - 1].isFree;
    assert back == MergedRight(Released(both, k), k);
    assert forall i :: 0 <= i < k ==> back[i] == blocks[i];
    assert Fits(back[k], size);
    assert FirstFit(back, size) == k;
  }

  /** Taking the next block and giving the last one back. */
  lemma NextTurn(blocks: seq<Block>, size: int, n: nat, lo: int, hi: int)
    requires Canonical(blocks, lo, hi) && 0 <= size && RoomInTurn(blocks, size, n)
    ensures var held := AfterTurns(blocks, size, n);
      && Canonical(held, lo, hi) && Live(held) == Live(blocks) + (if n == 0 then {} else {HeldInTurn(blocks, size, n)})
      && (n > 0 ==> HeldInTurn(blocks, size, n) !in Live(blocks))
      && (HasBlock(held, size) <==> RoomInTurn(blocks, size, n + 1))
      && (HasBlock(held, size) ==> Granted(held, size) == HeldInTurn(blocks, size, n + 1))
  {
    hide Canonical, Taken, Granted, HasBlock, FirstBack;
    if n > 0 {
      TakenLive(blocks, size, lo, hi);
      if n >= 2 {
        TakenLive(Taken(blocks, size), size, lo, hi);
        FirstBackLive(blocks, size, lo, hi);
        FirstBackFits(blocks, size, lo, hi);
      }
    }
  }

  lemma NoTurns(blocks: seq<Block>, size: int)
    ensures RoomInTurn(blocks, size, 0) && AfterTurns(blocks, size, 0) == blocks
  {
  }

  lemma MoreTurns(blocks: seq<Block>, size: int, n: nat, more: nat)
    requires n <= more && RoomInTurn(blocks, size, more)
    ensures RoomInTurn(blocks, size, n)
  {
  }

  /** A list with exactly these blocks live is the list after n turns. */
  lemma TurnedTo(blocks: seq<Block>, size: int, n: nat, now: seq<Block>, lo: int, hi: int)
    requires Canonical(blocks, lo, hi) && 0 <= size && n >= 1 && RoomInTurn(blocks, size, n) && Canonical(now, lo, hi)
    requires Live(now) == Live(blocks) + {HeldInTurn(blocks, size, n)}
    ensures now == AfterTurns(blocks, size, n)
  {
    NextTurn(blocks, size, n, lo, hi);
    CanonicalUnique(now, AfterTurns(blocks, size, n), lo, hi);
  }
}
