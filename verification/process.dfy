/** Processes: what creating one takes from the kernel, and that freeing it gives everything back. */
module Process {
  import opened Bits
  import opened Bytes
  import opened Collections
  import opened Paging
  import opened Vmm
  import opened FrameOwnership
  import opened UserMemory
  import opened Elf
  import opened OpenFile
  import opened KernelHeap
  import H = Heap

  const PROCESS_SIZE := 280
  const PROCESS_MAX_PAGES := 64
  const PROCESS_KSTACK_SIZE := 8192
  const USER_STACK_VIRT := 0xBFFF_F000
  const USER_STACK_PAGES := 4
  const USER_STACK_TOP := 0xC000_0000

  /** The highest stack page, and the one behind it. */
  const STACK_PAGE := USER_STACK_VIRT / PAGE_SIZE
  const STACK_END := STACK_PAGE + 1

  /** `at` is the address of the structure in the kernel heap. */
  class Process {
    const at: int
    const mappedPages: array<Word>
    var entry: Word
    var stackTop: Word
    var exitCode: int
    var kstack: int
    var kstackTop: int
    var mappedCount: nat
    ghost var structGrant: H.Grant
    ghost var stackGrant: H.Grant

    /** memset to zero */
    constructor (at: int)
      ensures this.at == at && fresh(mappedPages) && mappedPages.Length == PROCESS_MAX_PAGES
      ensures mappedCount == 0
    {
      this.at := at;
      mappedPages := new Word[PROCESS_MAX_PAGES];
      entry, stackTop, exitCode, kstack, kstackTop, mappedCount := 0, 0, 0, 0, 0, 0;
    }

    /** The structure and the kernel stack are two live blocks of the kernel heap. */
    ghost predicate Backed(blocks: seq<H.Block>)
      reads this
    {
      && structGrant in H.Live(blocks) && structGrant.addr + H.HEADER_SIZE == at && structGrant.size >= 280
      && stackGrant in H.Live(blocks) && stackGrant.addr + H.HEADER_SIZE == kstack
      && stackGrant.size >= 8192
      && structGrant != stackGrant && 0 < structGrant.addr && 0 < stackGrant.addr
    }
  }

  // ---- The user stack ----

  /** The first n stack pages, from the top down. */
  function StackList(n: nat): (pages: seq<int>)
    ensures |pages| == n && forall k :: 0 <= k < n ==> pages[k] == STACK_PAGE - k
  {
    seq(n, k => STACK_PAGE - k)
  }

  ghost function StackPages(): set<int> { Interval(STACK_END - USER_STACK_PAGES, STACK_END) }

  lemma StackAddress(i: nat)
    requires i < USER_STACK_PAGES
    ensures var virt := USER_STACK_VIRT - i * PAGE_SIZE;
      0 <= virt <= FULL && PdIndex(virt) < SELF && PageOf(virt) == STACK_PAGE - i
      && virt == (STACK_PAGE - i) * PAGE_SIZE
    ensures STACK_PAGE - i in StackPages()
  {
    assert Within(STACK_END - USER_STACK_PAGES, STACK_PAGE - i, STACK_END);
  }

  /** Four pages under the top of user space. */
  method AllocStack(vm: Vmm, proc: Process, ghost m: Mem) returns (ok: bool, ghost m': Mem)
    requires vm.Ready() && Good(vm.Now(), m) && Settled(vm.Now(), m, STACK_END - USER_STACK_PAGES, STACK_END)
    requires proc.mappedPages.Length == PROCESS_MAX_PAGES && proc.mappedCount <= PROCESS_MAX_PAGES
    requires proc.mappedPages != vm.pmm.bitmap
    modifies vm`ram, vm.pmm`usedBlocks, vm.pmm.bitmap, proc`mappedCount, proc.mappedPages
    ensures vm.Ready() && Good(vm.Now(), m') && proc.mappedCount <= PROCESS_MAX_PAGES && Kept(m, m')
    ensures Confined(old(vm.Now()), m, vm.Now(), m', StackPages())
    ensures Settled(vm.Now(), m', STACK_END - USER_STACK_PAGES, STACK_END)
    ensures ok ==> Recorded(old(proc.mappedPages[..]), old(proc.mappedCount), proc.mappedPages[..], proc.mappedCount,
                            StackList(USER_STACK_PAGES))
    ensures ok ==> AllMapped(m', STACK_END - USER_STACK_PAGES, STACK_END)
    ensures ok ==> Idle(old(vm.Now()), vm.Now())
                   && StaleRange(old(vm.Now()), vm.Now(), m', STACK_END - USER_STACK_PAGES, STACK_END)
    ensures ok ==> Weight(m') == Weight(m) + USER_STACK_PAGES
    ensures !ok ==> NoFrame(vm.Now())
  {
    hide Good, Confined, Recorded, Settled, NoFrame, Kept, Weight, AllMapped, Idle, StalePage;
    ghost var v0 := vm.Now();
    m' := m;
    ConfinedSelf(v0, m, StackPages());
    KeptSelf(m);
    NoneListed(proc.mappedPages[..], proc.mappedCount);
    NoneMapped(m);
    IdleSelf(v0);
    for i := 0 to USER_STACK_PAGES
      invariant vm.Ready() && Good(vm.Now(), m') && Confined(v0, m, vm.Now(), m', StackPages())
      invariant proc.mappedCount <= PROCESS_MAX_PAGES && Kept(m, m') && Weight(m') == Weight(m) + i
      invariant Settled(vm.Now(), m', STACK_END - USER_STACK_PAGES, STACK_END)
      invariant Idle(v0, vm.Now()) && StaleRange(v0, vm.Now(), m', STACK_END - i, STACK_END)
      invariant AllMapped(m', STACK_END - i, STACK_END) || (i == 1 && NoFrame(vm.Now()))
      invariant Recorded(old(proc.mappedPages[..]), old(proc.mappedCount), proc.mappedPages[..], proc.mappedCount,
                         StackList(i))
    {
      SettledAt(vm.Now(), m', STACK_END - USER_STACK_PAGES, STACK_END, STACK_PAGE - i);
      ghost var v, before := vm.Now(), m';
      ghost var list, k := proc.mappedPages[..], proc.mappedCount;
      ok, m' := AllocStackPage(vm, proc, i, m');
      StackNext(v0, m, v, before, vm.Now(), m', i);
      if !ok { return; }
      StackMapped(before, m', vm.Now(), i);
      IdleTrans(v0, v, vm.Now());
      StaleNext(v0, v, before, vm.Now(), m', STACK_END - i, STACK_END, STACK_PAGE - i);
      RecordedMore(old(proc.mappedPages[..]), old(proc.mappedCount), list, k, proc.mappedPages[..], proc.mappedCount,
                   StackList(i), [STACK_PAGE - i]);
      StackListNext(i);
    }
    ok := true;
  }

  method AllocStackPage(vm: Vmm, proc: Process, i: nat, ghost m: Mem) returns (ok: bool, ghost m': Mem)
    requires i < USER_STACK_PAGES && vm.Ready() && Good(vm.Now(), m)
    requires SettledPage(vm.Now(), m, STACK_PAGE - i)
    requires proc.mappedPages.Length == PROCESS_MAX_PAGES && proc.mappedCount <= PROCESS_MAX_PAGES
    requires proc.mappedPages != vm.pmm.bitmap
    modifies vm`ram, vm.pmm`usedBlocks, vm.pmm.bitmap, proc`mappedCount, proc.mappedPages
    ensures vm.Ready() && Good(vm.Now(), m') && proc.mappedCount <= PROCESS_MAX_PAGES
    ensures NoFrame(old(vm.Now())) ==> !ok
    ensures Idle(old(vm.Now()), vm.Now()) && (ok ==> StalePage(old(vm.Now()), vm.Now(), m', STACK_PAGE - i))
    ensures ok ==> STACK_PAGE - i in m'.pages || NoFrame(vm.Now())
    ensures ok && AllMapped(m, STACK_END - i, STACK_END) && i > 0 ==> STACK_PAGE - i in m'.pages
    ensures Confined(old(vm.Now()), m, vm.Now(), m', {STACK_PAGE - i}) && m.reserved <= m'.reserved
    ensures STACK_PAGE - i in m'.pages || (m'.pages == m.pages && Unmapped(vm.Now(), STACK_PAGE - i))
    ensures ok ==> Weight(m') == Weight(m) + 1
    ensures ok ==> Recorded(old(proc.mappedPages[..]), old(proc.mappedCount), proc.mappedPages[..], proc.mappedCount,
                            [STACK_PAGE - i])
    ensures !ok ==> NoFrame(vm.Now())
  {
    hide Good, Confined, NoFrame, Weight, Idle, StalePage;
    StackAddress(i);
    var vaddr := USER_STACK_VIRT - i * PAGE_SIZE;
    var r;
    ghost var v := vm.Now();
    r, m' := AllocUser(vm, vaddr, PRESENT + WRITABLE + USER, m);
    ConfinedGood(v, m, vm.Now(), m', {STACK_PAGE - i});
    if r == 0 { return false, m'; }
    if i > 0 && AllMapped(m, STACK_END - i, STACK_END) { PageAbove(m, i); }
    if proc.mappedCount < PROCESS_MAX_PAGES {
      proc.mappedPages[proc.mappedCount] := vaddr;
      proc.mappedCount := proc.mappedCount + 1;
    }
    ok := true;
  }

  lemma NoneListed(list: seq<Word>, n: nat)
    requires n <= |list|
    ensures Recorded(list, n, list, n, StackList(0))
  {
  }

  lemma NoneMapped(m: Mem)
    ensures AllMapped(m, STACK_END, STACK_END)
  {
  }

  /** All stack pages lie under one page table. */
  lemma PageAbove(m: Mem, i: nat)
    requires 0 < i < USER_STACK_PAGES && AllMapped(m, STACK_END - i, STACK_END)
    ensures HasNeighbour(m, STACK_PAGE - i)
  {
    var above := STACK_PAGE - i + 1;
    assert above in m.pages && above / ENTRIES == (STACK_PAGE - i) / ENTRIES;
  }

  /** The frame of the first stack page is lost only when there is none for the second. */
  lemma StackMapped(m: Mem, m': Mem, v': View, i: nat)
    requires i < USER_STACK_PAGES && AllMapped(m, STACK_END - i, STACK_END) && Kept(m, m')
    requires STACK_PAGE - i in m'.pages || (i == 0 && NoFrame(v'))
    ensures AllMapped(m', STACK_END - (i + 1), STACK_END) || (i == 0 && NoFrame(v'))
  {
  }

  lemma SettledAt(v: View, m: Mem, lo: nat, hi: nat, p: nat)
    requires Settled(v, m, lo, hi) && lo <= p < hi
    ensures SettledPage(v, m, p)
  {
  }

  lemma StackListNext(i: nat)
    ensures StackList(i + 1) == StackList(i) + [STACK_PAGE - i]
  {
  }

  lemma StackNext(v0: View, m0: Mem, v: View, m: Mem, v': View, m': Mem, i: nat)
    requires i < USER_STACK_PAGES && Confined(v0, m0, v, m, StackPages()) && Confined(v, m, v', m', {STACK_PAGE - i})
    requires Settled(v, m, STACK_END - USER_STACK_PAGES, STACK_END) && Kept(m0, m) && m.reserved <= m'.reserved
    requires STACK_PAGE - i in m'.pages || (m'.pages == m.pages && Unmapped(v', STACK_PAGE - i))
    ensures Good(v', m') && Confined(v0, m0, v', m', StackPages()) && Kept(m0, m') && Kept(m, m')
    ensures Settled(v', m', STACK_END - USER_STACK_PAGES, STACK_END)
  {
    hide Good;
    var page := STACK_PAGE - i;
    StackAddress(i);
    ConfinedMore(v, m, v', m', {page}, StackPages());
    ConfinedTrans(v0, m0, v, m, v', m', StackPages());
    StillSettled(v, m, v', m', {page}, STACK_END - USER_STACK_PAGES, STACK_END);
    forall p | p in m.pages ensures p in m'.pages {
      if p != page { assert p !in {page}; }
    }
  }

  // ---- Creation ----

  ghost function Footprint(file: seq<Byte>): set<int> { ImagePages(file) + StackPages() }

  /** A process is there: its image in memory, as far as its stack has not taken the pages,
      made of the pages `image`, and its stack, each page with a frame; nobody has cleared the
      stack. Each page taken added one to the frames reserved or in use. */
  ghost predicate Created(v: View, m: Mem, v': View, m': Mem, file: seq<Byte>, entry: Word, image: seq<int>) {
    && |file| >= EHDR_SIZE && IsExecutable(file[..EHDR_SIZE]) && entry == HeaderOf(file).entry
    && Good(v', m') && StaleRange(v, v', m', STACK_END - USER_STACK_PAGES, STACK_END)
    && ImageLoaded(v, v', m', file, HeaderOf(file).phnum, StackPages()) && Made(file, HeaderOf(file).phnum, image)
    && HaveFrames(m', image) && AllMapped(m', STACK_END - USER_STACK_PAGES, STACK_END)
    && Kept(m, m') && Weight(m') == Weight(m) + |PagesMade(image)|
  }

  /** The pages a process is made of, in the order they were allocated. */
  function PagesMade(image: seq<int>): seq<int> { image + StackList(USER_STACK_PAGES) }

  lemma StackDone(v0: View, m0: Mem, v: View, m: Mem, v': View, m': Mem, file: seq<Byte>, entry: Word, image: seq<int>)
    requires Loaded(v0, m0, v, m, file, entry, image) && Confined(v, m, v', m', StackPages())
    requires AllMapped(m', STACK_END - USER_STACK_PAGES, STACK_END)
    requires Kept(m, m') && Weight(m') == Weight(m) + USER_STACK_PAGES
    requires Good(v', m') && StaleRange(v, v', m', STACK_END - USER_STACK_PAGES, STACK_END)
    ensures Created(v0, m0, v', m', file, entry, image)
  {
    hide StaleRange, Idle, Good, Confined, SegmentShown, HasSegment, SegmentOf, IsExecutable, ParseHeader, Made;
    hide AllMapped, Weight, Covered;
    var n := HeaderOf(file).phnum;
    forall i: nat | i < n && HasSegment(file, i) ensures SegmentShown(v0, v', m', file, i, n, StackPages()) {
      forall p | Covered(file, i, n, {}, p) || p in StackPages() ensures Covered(file, i, n, StackPages(), p) {
        CoveredOver(file, i, n, p);
      }
      ShownKept(v0, v, m, v', m', file, i, n, n, {}, StackPages(), StackPages());
    }
    StaleSinceAll(v0, v, v', m', STACK_END - USER_STACK_PAGES, STACK_END);
  }

  lemma StaleSinceAll(v: View, v': View, v'': View, m: Mem, lo: nat, hi: nat)
    requires Idle(v, v') && Good(v'', m) && StaleRange(v', v'', m, lo, hi)
    ensures StaleRange(v, v'', m, lo, hi)
  {
    hide Idle, Good, Stale;
    forall p, a | lo <= p < hi && 0 <= a && a / PAGE_SIZE == p && p in m.pages ensures Stale(v, v'', m, a) {
      assert StalePage(v', v'', m, p);
      StaleSince(v, v', v'', m, a);
    }
  }

  /** The stack pointer of a new process is the last word of its highest stack page, and user
      mode may store there and, which is what the first push does, in the word below. */
  ghost predicate StackReady(v: View, m: Mem, top: Word) {
    && top == 0xBFFF_FFFC && top % 4 == 0 && top + 4 == STACK_END * PAGE_SIZE
    && forall a :: top - 4 <= a < top + 4 ==> 0 <= a <= FULL && PageOf(a) in m.pages && UserMayStore(v.ram, v.dir, a)
  }

  lemma TopMapped(v: View, m: Mem, top: Word)
    requires Good(v, m) && AllMapped(m, STACK_END - USER_STACK_PAGES, STACK_END) && top == USER_STACK_TOP - 4
    ensures StackReady(v, m, top)
  {
    hide Good;
    forall a | top - 4 <= a < top + 4 ensures 0 <= a <= FULL && PageOf(a) in m.pages && UserMayStore(v.ram, v.dir, a) {
      OpenToUser(v, m, a);
    }
  }

  lemma CoveredOver(file: seq<Byte>, i: nat, n: nat, p: int)
    requires Covered(file, i, n, {}, p) || p in StackPages()
    ensures Covered(file, i, n, StackPages(), p)
  {
  }

  /** The stack's pages stay settled while the image is loaded. */
  lemma StackStillSettled(v: View, m: Mem, v': View, m': Mem, file: seq<Byte>)
    requires Confined(v, m, v', m', ImagePages(file)) && Kept(m, m')
    requires Settled(v, m, STACK_END - USER_STACK_PAGES, STACK_END)
    requires forall p :: p in ImagePages(file) ==> p in m'.pages
    ensures Settled(v', m', STACK_END - USER_STACK_PAGES, STACK_END)
  {
    StillSettled(v, m, v', m', ImagePages(file), STACK_END - USER_STACK_PAGES, STACK_END);
  }

  /** A loaded image has frames for all its pages. */
  lemma ImageHasFrames(v: View, m: Mem, v': View, m': Mem, file: seq<Byte>, entry: Word, made: seq<int>)
    requires Loaded(v, m, v', m', file, entry, made)
    ensures forall p :: p in ImagePages(file) ==> p in m'.pages
  {
    hide HasSegment, HeaderOf, ImageLoaded, Idle, IsExecutable, Weight, Kept;
    forall p | p in ImagePages(file) ensures p in m'.pages { TakenInImage(file, HeaderOf(file).phnum, p); }
  }

  lemma ConfinedBoth(v: View, m: Mem, v': View, m': Mem, v'': View, m'': Mem, touched: set<int>, more: set<int>)
    requires Confined(v, m, v', m', touched) && Confined(v', m', v'', m'', more)
    ensures Confined(v, m, v'', m'', touched + more)
  {
    hide Confined;
    ConfinedMore(v, m, v', m', touched, touched + more);
    ConfinedMore(v', m', v'', m'', more, touched + more);
    ConfinedTrans(v, m, v', m', v'', m'', touched + more);
  }

  // ---- The kernel heap's share ----

  /** The two blocks of a process. */
  ghost function Grants(proc: Process): set<H.Grant>
    reads proc
  {
    {proc.structGrant, proc.stackGrant}
  }

  /** The heap has room for the structure and, behind it, for the kernel stack. */
  ghost predicate HeapRoom(blocks: seq<H.Block>) {
    HasBlock(blocks, PROCESS_SIZE) && HasBlock(Taken(blocks, PROCESS_SIZE), PROCESS_KSTACK_SIZE)
  }

  /** The heap with both. */
  ghost function WithProcess(blocks: seq<H.Block>): seq<H.Block>
    requires HeapRoom(blocks)
  {
    Taken(Taken(blocks, PROCESS_SIZE), PROCESS_KSTACK_SIZE)
  }

  /** And then there is room for the buffer of a read. */
  ghost predicate LoadRoom(blocks: seq<H.Block>, buffer: int) {
    HeapRoom(blocks) && HasBlock(WithProcess(blocks), buffer)
  }

  /** The structure, zeroed, and the kernel stack; without both, neither. */
  method AllocProcess(heap: H.Heap) returns (proc: Process?)
    requires heap.Valid()
    modifies heap
    ensures heap.Valid()
    ensures proc != null <==> HeapRoom(old(heap.blocks))
    ensures proc == null ==> heap.blocks == old(heap.blocks)
    ensures proc != null ==> fresh(proc) && fresh(proc.mappedPages) && proc.Backed(heap.blocks)
    ensures proc != null ==> heap.blocks == WithProcess(old(heap.blocks))
    ensures proc != null ==> H.Live(heap.blocks) == H.Live(old(heap.blocks)) + Grants(proc)
    ensures proc != null ==> Grants(proc) !! H.Live(old(heap.blocks))
    ensures proc != null ==> proc.mappedPages.Length == PROCESS_MAX_PAGES && proc.mappedCount == 0
    ensures proc != null ==> proc.kstackTop == proc.kstack + 8192
  {
    hide HasBlock, Taken, Granted;
    ghost var before := heap.blocks;
    var at := KmallocLive(heap, PROCESS_SIZE);
    if at == 0 { return null; }
    ghost var own, between := Granted(before, PROCESS_SIZE), heap.blocks;
    proc := new Process(at);
    var kstack := KmallocLive(heap, PROCESS_KSTACK_SIZE);
    if kstack == 0 {
      KfreeLive(heap, at, own);
      SameLive(heap, before);
      return null;
    }
    proc.kstack := kstack;
    proc.kstackTop := kstack + PROCESS_KSTACK_SIZE;
    proc.structGrant, proc.stackGrant := own, Granted(between, PROCESS_KSTACK_SIZE);
  }

  /** kfree of the kernel stack and the structure. */
  method ReleaseProcess(heap: H.Heap, proc: Process)
    requires heap.Valid() && proc.Backed(heap.blocks)
    modifies heap
    ensures heap.Valid() && H.Live(heap.blocks) == H.Live(old(heap.blocks)) - Grants(proc)
  {
    KfreeLive(heap, proc.kstack, proc.stackGrant);
    KfreeLive(heap, proc.at, proc.structGrant);
  }

  /** On the error paths of process_create: the heap is again what it was. */
  method UndoProcess(heap: H.Heap, proc: Process, ghost before: seq<H.Block>)
    requires heap.Valid() && proc.Backed(heap.blocks) && H.Canonical(before, heap.start, heap.start + H.HEAP_SIZE)
    requires Grants(proc) !! H.Live(before) && H.Live(heap.blocks) == H.Live(before) + Grants(proc)
    modifies heap
    ensures heap.Valid() && heap.blocks == before
  {
    ghost var created := heap.blocks;
    ReleaseProcess(heap, proc);
    HeapConservation(before, created, heap.blocks, Grants(proc), heap.start, heap.start + H.HEAP_SIZE);
  }

  /** The list of pages a process keeps: the first of those made, as many as there is room for. */
  ghost predicate Listed(list: seq<Word>, n: nat, made: seq<int>) {
    && n <= |list| && n == (if |made| <= |list| then |made| else |list|)
    && forall k :: 0 <= k < n ==> list[k] == made[k] * PAGE_SIZE
  }

  lemma BothListed(a: seq<Word>, b: seq<Word>, n: nat, c: seq<Word>, n': nat, image: seq<int>, stack: seq<int>)
    requires Recorded(a, 0, b, n, image) && Recorded(b, n, c, n', stack)
    ensures Listed(c, n', image + stack)
  {
    RecordedMore(a, 0, b, n, c, n', image, stack);
    forall k | 0 <= k < n' ensures c[k] == (image + stack)[k] * PAGE_SIZE {
      assert c[0 + k] == (image + stack)[k] * PAGE_SIZE;
    }
  }

  /** The image and the stack of a new process. */
  method FillProcess(vm: Vmm, file: File, proc: Process, ghost m: Mem)
    returns (ok: bool, faulted: bool, ghost m': Mem, ghost image: seq<int>)
    requires file.Ready()
    requires vm.Ready() && Good(vm.Now(), m)
    requires Loadable(file.content) && SettledAll(vm.Now(), m, file.content)
    requires Settled(vm.Now(), m, STACK_END - USER_STACK_PAGES, STACK_END)
    requires proc.mappedPages.Length == PROCESS_MAX_PAGES && proc.mappedCount == 0 && proc.mappedPages != vm.pmm.bitmap
    modifies vm`ram, vm.pmm`usedBlocks, vm.pmm.bitmap, proc.mappedPages
    modifies proc`entry, proc`mappedCount, proc`stackTop, proc`exitCode, file.heap
    ensures file.Ready() && file.heap.blocks == old(file.heap.blocks)
    ensures vm.Ready() && Good(vm.Now(), m') && Confined(old(vm.Now()), m, vm.Now(), m', Footprint(file.content))
    ensures ok ==> !faulted && proc.entry != 0 && proc.stackTop == USER_STACK_TOP - 4 && proc.exitCode == 0
    ensures ok ==> Created(old(vm.Now()), m, vm.Now(), m', file.content, proc.entry, image)
    ensures ok ==> StackReady(vm.Now(), m', proc.stackTop)
    ensures ok ==> proc.mappedCount <= PROCESS_MAX_PAGES
    ensures ok ==> Listed(proc.mappedPages[..], proc.mappedCount, image + StackList(USER_STACK_PAGES))
    ensures Unloadable(file.content) || !file.Buffered() ==> !ok
    ensures !ok && file.Buffered() ==> Unloadable(file.content) || NoFrame(vm.Now())
  {
    hide File.Ready, H.Heap.Valid, HasBlock, Vmm.Now, Good, Confined, Settled, AllMapped, Created, Loaded, SettledAll;
    hide Loadable, Recorded, Listed;
    hide NoFrame, Unloadable, Kept, Weight;
    ghost var v0 := vm.Now();
    ghost var list0 := proc.mappedPages[..];
    ok := false;
    proc.entry, faulted, proc.mappedCount, m', image := ElfLoad(vm, file, proc.mappedPages, proc.mappedCount, m);
    ghost var v1, m1 := vm.Now(), m';
    ConfinedMore(v0, m, v1, m', ImagePages(file.content), Footprint(file.content));
    if faulted || proc.entry == 0 { return; }
    ImageHasFrames(v0, m, v1, m', file.content, proc.entry, image);
    StackStillSettled(v0, m, v1, m', file.content);
    ghost var list1, n1 := proc.mappedPages[..], proc.mappedCount;
    ok, m' := AllocStack(vm, proc, m');
    ConfinedBoth(v0, m, v1, m1, vm.Now(), m', ImagePages(file.content), StackPages());
    if !ok { return; }
    StackDone(v0, m, v1, m1, vm.Now(), m', file.content, proc.entry, image);
    BothListed(list0, list1, n1, proc.mappedPages[..], proc.mappedCount, image, StackList(USER_STACK_PAGES));
    proc.stackTop := USER_STACK_TOP - 4;
    proc.exitCode := 0;
    TopMapped(vm.Now(), m', proc.stackTop);
  }

  /** process_create: a process with its image, its stack and the list of its pages, or null
      with the heap as it was. */
  method ProcessCreate(vm: Vmm, heap: H.Heap, file: File, ghost m: Mem)
    returns (proc: Process?, faulted: bool, ghost m': Mem, ghost image: seq<int>)
    requires file.Ready() && heap == file.heap
    requires vm.Ready() && Good(vm.Now(), m)
    requires Loadable(file.content) && SettledAll(vm.Now(), m, file.content)
    requires Settled(vm.Now(), m, STACK_END - USER_STACK_PAGES, STACK_END)
    modifies vm`ram, vm.pmm`usedBlocks, vm.pmm.bitmap, heap
    ensures vm.Ready() && Good(vm.Now(), m') && heap.Valid()
    ensures Confined(old(vm.Now()), m, vm.Now(), m', Footprint(file.content))
    ensures proc == null && !faulted ==> heap.blocks == old(heap.blocks)
    ensures proc != null ==> !faulted && fresh(proc) && fresh(proc.mappedPages) && proc.Backed(heap.blocks)
    ensures proc != null ==> H.Live(heap.blocks) == H.Live(old(heap.blocks)) + Grants(proc)
    ensures proc != null ==> Grants(proc) !! H.Live(old(heap.blocks))
    ensures proc != null ==> proc.entry != 0 && proc.stackTop == USER_STACK_TOP - 4 && proc.exitCode == 0
    ensures proc != null ==> proc.kstackTop == proc.kstack + 8192
    ensures proc != null ==> StackReady(vm.Now(), m', proc.stackTop)
    ensures proc != null ==> Created(old(vm.Now()), m, vm.Now(), m', file.content, proc.entry, image)
    ensures proc != null ==> proc.mappedPages.Length == PROCESS_MAX_PAGES && proc.mappedCount <= PROCESS_MAX_PAGES
    ensures proc != null ==> Listed(proc.mappedPages[..], proc.mappedCount, image + StackList(USER_STACK_PAGES))
    ensures proc != null ==> LoadRoom(old(heap.blocks), file.v.g.ClusterBytes()) && !Unloadable(file.content)
    ensures proc == null ==>
      !LoadRoom(old(heap.blocks), file.v.g.ClusterBytes()) || Unloadable(file.content) || NoFrame(vm.Now())
  {
    hide File.Valid, H.Heap.Valid, H.Canonical, HasBlock, WithProcess, H.Live, Listed, Kept;
    hide Good, Confined, Settled, Created, Loaded, SettledAll, Loadable, Recorded, Footprint, NoFrame, Unloadable;
    hide HeapRoom;
    HeapCanonical(heap);
    ghost var v0 := vm.Now();
    proc, faulted, m', image := null, false, m, [];
    ghost var before := heap.blocks;
    ConfinedSelf(v0, m, Footprint(file.content));
    var p := AllocProcess(heap);
    if p == null { return; }
    var ok;
    ok, faulted, m', image := FillProcess(vm, file, p, m);
    if faulted { return; }
    if !ok {
      UndoProcess(heap, p, before);
      return;
    }
    proc := p;
  }

  // ---- Release ----

  /** The pages behind the first n addresses of a list. */
  ghost function PagesOf(list: seq<Word>, n: nat): set<int>
    requires n <= |list|
  {
    set k | 0 <= k < n :: PageOf(list[k])
  }

  /** Every listed address can be unmapped: its page is the process's own, or has no frame. */
  ghost predicate Droppable(v: View, m: Mem, list: seq<Word>, n: nat)
    requires n <= |list|
  {
    forall k :: 0 <= k < n ==> PdIndex(list[k]) < SELF && SettledPage(v, m, PageOf(list[k]))
  }

  ghost predicate AllUnmapped(v: View, list: seq<Word>, n: nat)
    requires n <= |list|
  {
    forall k :: 0 <= k < n ==> Unmapped(v, PageOf(list[k]))
  }

  /** What unmapping the first n listed pages does. */
  ghost predicate Dropped(v: View, m: Mem, v': View, m': Mem, list: seq<Word>, n: nat)
    requires n <= |list|
  {
    && Confined(v, m, v', m', PagesOf(list, n)) && AllUnmapped(v', list, n)
    && m' == m.(pages := m.pages - PagesOf(list, n))
    && Tables(v'.ram, v'.dir) == Tables(v.ram, v.dir)
  }

  lemma DroppableAt(v: View, m: Mem, list: seq<Word>, n: nat, i: nat)
    requires i < n <= |list| && Droppable(v, m, list, n)
    ensures PdIndex(list[i]) < SELF && (PageOf(list[i]) in m.pages || Unmapped(v, PageOf(list[i])))
  {
    assert SettledPage(v, m, PageOf(list[i]));
  }

  lemma DroppedNone(v: View, m: Mem, list: seq<Word>)
    requires Good(v, m)
    ensures Dropped(v, m, v, m, list, 0)
  {
    ConfinedSelf(v, m, PagesOf(list, 0));
    assert m.pages - PagesOf(list, 0) == m.pages;
  }

  lemma DroppedNext(v: View, m: Mem, v': View, m': Mem, v'': View, m'': Mem, list: seq<Word>, i: nat, n: nat)
    requires i < n <= |list| && Dropped(v, m, v', m', list, i) && Droppable(v', m', list, n)
    requires Confined(v', m', v'', m'', {PageOf(list[i])}) && m'' == m'.(pages := m'.pages - {PageOf(list[i])})
    requires Unmapped(v'', PageOf(list[i])) && (v''.dir + 1) * ENTRIES <= |v''.ram|
    requires Tables(v''.ram, v''.dir) == Tables(v'.ram, v'.dir)
    ensures Dropped(v, m, v'', m'', list, i + 1) && Droppable(v'', m'', list, n)
  {
    hide Good, SameBytes;
    assert PagesOf(list, i + 1) == PagesOf(list, i) + {PageOf(list[i])};
    ConfinedBoth(v, m, v', m', v'', m'', PagesOf(list, i), {PageOf(list[i])});
    assert m.pages - PagesOf(list, i) - {PageOf(list[i])} == m.pages - PagesOf(list, i + 1);
    forall k | 0 <= k < n ensures SettledPage(v'', m'', PageOf(list[k])) {
      assert SettledPage(v', m', PageOf(list[k]));
      PageIndices(list[k]);
    }
    forall k | 0 <= k < i + 1 ensures Unmapped(v'', PageOf(list[k])) {
      if k < i { assert Unmapped(v', PageOf(list[k])); }
    }
  }

  /** vmm_unmap_page on every listed page. */
  method FreePages(vm: Vmm, proc: Process, ghost m: Mem) returns (ghost m': Mem)
    requires vm.Ready() && Good(vm.Now(), m) && proc.mappedCount <= proc.mappedPages.Length
    requires Droppable(vm.Now(), m, proc.mappedPages[..], proc.mappedCount) && proc.mappedPages != vm.pmm.bitmap
    modifies vm`ram, vm.pmm`usedBlocks, vm.pmm.bitmap
    ensures vm.Ready() && Good(vm.Now(), m')
    ensures Dropped(old(vm.Now()), m, vm.Now(), m', old(proc.mappedPages[..]), old(proc.mappedCount))
  {
    hide Good, Confined, Dropped, Droppable;
    m' := m;
    ghost var v0 := vm.Now();
    ghost var list, n := proc.mappedPages[..], proc.mappedCount;
    DroppedNone(v0, m, list);
    for i := 0 to proc.mappedCount
      invariant vm.Ready() && Good(vm.Now(), m') && proc.mappedPages[..] == list && proc.mappedCount == n
      invariant Dropped(v0, m, vm.Now(), m', list, i) && Droppable(vm.Now(), m', list, n)
    {
      DroppableAt(vm.Now(), m', list, n, i);
      ghost var v, before := vm.Now(), m';
      m' := DropUser(vm, proc.mappedPages[i], m');
      ConfinedGood(v, before, vm.Now(), m', {PageOf(list[i])});
      DroppedNext(v0, m, v, before, vm.Now(), m', list, i, n);
    }
  }

  /** process_free: every listed page is unmapped, and both heap blocks are given back. */
  method ProcessFree(vm: Vmm, heap: H.Heap, proc: Process?, ghost m: Mem) returns (ghost m': Mem)
    requires vm.Ready() && Good(vm.Now(), m) && heap.Valid()
    requires proc != null ==> proc.Backed(heap.blocks) && proc.mappedCount <= proc.mappedPages.Length
    requires proc != null ==> Droppable(vm.Now(), m, proc.mappedPages[..], proc.mappedCount)
    requires proc != null ==> proc.mappedPages != vm.pmm.bitmap
    modifies vm`ram, vm.pmm`usedBlocks, vm.pmm.bitmap, heap
    ensures vm.Ready() && Good(vm.Now(), m') && heap.Valid()
    ensures proc == null ==> m' == m && vm.Now() == old(vm.Now()) && heap.blocks == old(heap.blocks)
    ensures proc != null ==> Dropped(old(vm.Now()), m, vm.Now(), m', old(proc.mappedPages[..]), old(proc.mappedCount))
    ensures proc != null ==> H.Live(heap.blocks) == H.Live(old(heap.blocks)) - Grants(proc)
  {
    hide Good, Dropped, Droppable;
    if proc == null { return m; }
    m' := FreeProcess(vm, heap, proc, m);
  }

  method FreeProcess(vm: Vmm, heap: H.Heap, proc: Process, ghost m: Mem) returns (ghost m': Mem)
    requires vm.Ready() && Good(vm.Now(), m) && heap.Valid()
    requires proc.Backed(heap.blocks) && proc.mappedCount <= proc.mappedPages.Length
    requires Droppable(vm.Now(), m, proc.mappedPages[..], proc.mappedCount) && proc.mappedPages != vm.pmm.bitmap
    modifies vm`ram, vm.pmm`usedBlocks, vm.pmm.bitmap, heap
    ensures vm.Ready() && Good(vm.Now(), m') && heap.Valid()
    ensures Dropped(old(vm.Now()), m, vm.Now(), m', old(proc.mappedPages[..]), old(proc.mappedCount))
    ensures H.Live(heap.blocks) == H.Live(old(heap.blocks)) - Grants(proc)
  {
    hide Good, Dropped, Droppable;
    m' := FreePages(vm, proc, m);
    ReleaseProcess(heap, proc);
  }

  // ---- What creating, running and freeing a process leaves behind ----

  /** The state before process_create: none of the pages it will take is there. */
  ghost predicate Fresh(v: View, m: Mem, file: seq<Byte>) {
    Good(v, m) && Loadable(file) && forall p :: p in Footprint(file) ==> 0 <= p && ClearPage(v, m, p)
  }

  lemma FreshSettled(v: View, m: Mem, file: seq<Byte>)
    requires Fresh(v, m, file)
    ensures Good(v, m) && Loadable(file) && SettledAll(v, m, file)
    ensures Settled(v, m, STACK_END - USER_STACK_PAGES, STACK_END)
  {
    hide Good, HasSegment, SegmentOf, First, End, Unmapped;
    forall i: nat | HasSegment(file, i) ensures Settled(v, m, First(SegmentOf(file, i)), End(SegmentOf(file, i))) {
      SegmentInImage(file, i);
      forall p: nat | First(SegmentOf(file, i)) <= p < End(SegmentOf(file, i)) ensures SettledPage(v, m, p) {
        assert Within(First(SegmentOf(file, i)), p, End(SegmentOf(file, i)));
        assert p in Footprint(file);
      }
    }
    forall p: nat | STACK_END - USER_STACK_PAGES <= p < STACK_END ensures SettledPage(v, m, p) {
      assert Within(STACK_END - USER_STACK_PAGES, p, STACK_END);
      assert p in Footprint(file);
    }
  }

  /** A user program has run: it can change bytes, but neither the page map nor the frames in use. */
  ghost predicate Ran(v: View, m: Mem, v': View) {
    && Good(v', m) && v'.frames == v.frames && v'.dir == v.dir && v'.used == v.used
    && Directory(v.ram, v.frames, v.dir) && Directory(v'.ram, v.frames, v.dir)
    && SamePages(v.ram, v'.ram, v.frames, v.dir) && Tables(v'.ram, v.dir) == Tables(v.ram, v.dir)
  }

  /** One process from beginning to end: the kernel's view of memory and the owners of pages
      before it (v0, m0), once created (v1, m1), after it has run (u1) and once freed (v2, m2);
      its file, entry address and image pages; the list of pages it kept and its length. */
  datatype Life = Life(v0: View, m0: Mem, v1: View, m1: Mem, u1: View, v2: View, m2: Mem,
                       file: seq<Byte>, entry: Word, image: seq<int>, list: seq<Word>, n: nat)

  /** The process has been created. */
  ghost predicate Begun(p: Life) {
    && Fresh(p.v0, p.m0, p.file)
    && Confined(p.v0, p.m0, p.v1, p.m1, Footprint(p.file)) && Created(p.v0, p.m0, p.v1, p.m1, p.file, p.entry, p.image)
    && |p.list| == PROCESS_MAX_PAGES && Listed(p.list, p.n, PagesMade(p.image))
  }

  /** Create, run, free. */
  ghost predicate Lifetime(p: Life) {
    Begun(p) && Ran(p.v1, p.m1, p.u1) && Dropped(p.u1, p.m1, p.v2, p.m2, p.list, p.n)
  }

  /** The pages that a process made of this file takes, in order. */
  function ProcessPages(file: seq<Byte>): seq<int> {
    PagesMade(if |file| < EHDR_SIZE then [] else PagesTaken(file, HeaderOf(file).phnum))
  }

  /** Those of them that get onto its list. */
  function ListedPages(file: seq<Byte>): seq<int> {
    var made := ProcessPages(file);
    if |made| <= PROCESS_MAX_PAGES then made else made[..PROCESS_MAX_PAGES]
  }

  predicate FitsList(file: seq<Byte>) { |ProcessPages(file)| <= PROCESS_MAX_PAGES }

  ghost predicate AllListed(file: seq<Byte>) { forall q :: q in ProcessPages(file) ==> q in ListedPages(file) }

  /** For an image that keeps off the stack every page is listed exactly when there is room for
      all: the last stack page is taken last, and only once. */
  lemma ListedExactly(file: seq<Byte>)
    requires Loadable(file) && |file| >= EHDR_SIZE
    ensures FitsList(file) ==> AllListed(file)
    ensures ImagePages(file) !! StackPages() ==> (AllListed(file) <==> FitsList(file))
  {
    hide AllListed, ImagePages, StackPages, Loadable, PagesTaken, HeaderOf;
    if FitsList(file) {
      FittingListed(file);
    } else if ImagePages(file) !! StackPages() {
      LastUnlisted(file);
    }
  }

  lemma FittingListed(file: seq<Byte>)
    requires FitsList(file)
    ensures AllListed(file)
  {
  }

  lemma LastUnlisted(file: seq<Byte>)
    requires |file| >= EHDR_SIZE && Loadable(file) && !FitsList(file) && ImagePages(file) !! StackPages()
    ensures !AllListed(file)
  {
    hide Loadable, HeaderOf, ImagePages, StackPages, PagesTaken;
    var image := PagesTaken(file, HeaderOf(file).phnum);
    var i := USER_STACK_PAGES - 1;
    StackAddress(i);
    assert ProcessPages(file)[|image| + i] == STACK_PAGE - i;
    assert STACK_PAGE - i in ProcessPages(file);
    forall k | 0 <= k < PROCESS_MAX_PAGES ensures ProcessPages(file)[k] != STACK_PAGE - i {
      if k < |image| {
        assert image[k] in image;
        TakenIsImage(file, image[k]);
      }
    }
    assert STACK_PAGE - i !in ListedPages(file);
  }

  /** What a created process keeps a list of is what its file says. */
  lemma BegunParts(p: Life)
    requires Begun(p)
    ensures Loadable(p.file) && |p.file| >= EHDR_SIZE && PagesMade(p.image) == ProcessPages(p.file)
    ensures |p.list| == PROCESS_MAX_PAGES && Listed(p.list, p.n, ProcessPages(p.file))
    ensures p.n == |ListedPages(p.file)| && ProcessPages(p.file)[..p.n] == ListedPages(p.file)
  {
    hide Good, Loadable, HeaderOf, PagesTaken, AllMapped, ImageLoaded, StaleRange, Confined, ClearPage, Weight, Kept;
    hide HaveFrames, IsExecutable;
  }

  lemma TakenIsImage(file: seq<Byte>, q: int)
    requires |file| >= EHDR_SIZE && Loadable(file)
    ensures q in PagesTaken(file, HeaderOf(file).phnum) <==> q in ImagePages(file)
  {
    hide HasSegment, HeaderOf, SegmentOf;
    TakenInImage(file, HeaderOf(file).phnum, q);
    if q in PagesTaken(file, HeaderOf(file).phnum) {
      var i: nat :| i < HeaderOf(file).phnum && InSegment(file, i, q);
      assert Placeable(SegmentOf(file, i));
    }
  }

  /** The pages taken are those of the image and the stack. */
  lemma TakenIsFootprint(file: seq<Byte>, q: int)
    requires Loadable(file) && |file| >= EHDR_SIZE
    ensures q in ProcessPages(file) <==> q in Footprint(file)
    ensures q in ProcessPages(file) ==> 0 <= q < SELF * ENTRIES
  {
    hide HasSegment, HeaderOf, SegmentOf, Loadable, PagesTaken;
    TakenIsImage(file, q);
    InStack(q);
    if q in StackPages() { assert Within(STACK_END - USER_STACK_PAGES, q, STACK_END); }
  }

  lemma StackOnce()
    ensures Distinct(StackList(USER_STACK_PAGES))
  {
  }

  lemma InStack(q: int)
    ensures q in StackList(USER_STACK_PAGES) <==> q in StackPages()
  {
    var stack := StackList(USER_STACK_PAGES);
    if q in StackPages() {
      assert Within(STACK_END - USER_STACK_PAGES, q, STACK_END);
      assert stack[STACK_PAGE - q] == q;
    }
    if q in stack {
      var i :| 0 <= i < |stack| && stack[i] == q;
      StackAddress(i);
    }
  }

  /** Nothing of the process's footprint was there before it. */
  lemma FootprintClear(v: View, m: Mem, file: seq<Byte>, p: int)
    requires Fresh(v, m, file) && p in Footprint(file)
    ensures 0 <= p < SELF * ENTRIES && p !in m.pages && Unmapped(v, p)
  {
    hide Good;
    assert 0 <= p && ClearPage(v, m, p);
  }

  lemma AddressOfPage(page: nat, virt: Word)
    requires virt == page * PAGE_SIZE
    ensures PageOf(virt) == page
  {
  }

  /** The pages on the list are the first n made. */
  lemma PagesListed(list: seq<Word>, n: nat, made: seq<int>, p: int)
    requires Listed(list, n, made) && forall q :: q in made ==> 0 <= q < SELF * ENTRIES
    ensures p in PagesOf(list, n) <==> p in made[..n]
  {
    forall k | 0 <= k < n ensures PageOf(list[k]) == made[k] {
      assert made[k] in made;
      AddressOfPage(made[k], list[k]);
    }
    if p in made[..n] {
      var k :| 0 <= k < n && made[..n][k] == p;
      assert PageOf(list[k]) == p;
    }
    if p in PagesOf(list, n) {
      var k :| 0 <= k < n && PageOf(list[k]) == p;
      assert made[..n][k] == p;
    }
  }

  /** The life of a process in short: it took exactly its footprint, all of which now has frames,
      and gave back exactly the pages on its list. */
  lemma LifePlaces(p: Life)
    requires Lifetime(p)
    ensures p.n <= |p.list|
    ensures forall q :: q in Footprint(p.file) ==> q in p.m1.pages && q !in p.m0.pages
    ensures forall q :: q in PagesOf(p.list, p.n) <==> q in ListedPages(p.file)
    ensures PagesOf(p.list, p.n) <= Footprint(p.file)
    ensures SamePlaces(p.m0, p.m1, Footprint(p.file)) && Good(p.v1, p.m1)
    ensures p.m2 == p.m1.(pages := p.m1.pages - PagesOf(p.list, p.n))
    ensures Kept(p.m0, p.m1) && Weight(p.m1) == Weight(p.m0) + |ProcessPages(p.file)|
  {
    hide Good, SameBytes, ImageLoaded, StaleRange, Made, Loadable, Footprint, PagesOf, Kept, Weight, ProcessPages;
    hide ListedPages, IsExecutable;
    BegunParts(p);
    var made := ProcessPages(p.file);
    forall q ensures q in made <==> q in Footprint(p.file) { TakenIsFootprint(p.file, q); }
    forall q ensures q in made ==> 0 <= q < SELF * ENTRIES { TakenIsFootprint(p.file, q); }
    forall q ensures q in PagesOf(p.list, p.n) <==> q in ListedPages(p.file) { PagesListed(p.list, p.n, made, q); }
    forall q | q in Footprint(p.file) ensures q in p.m1.pages && q !in p.m0.pages {
      FootprintClear(p.v0, p.m0, p.file, q);
      MadeMapped(p.m1, p.image, q);
    }
    forall q | q in PagesOf(p.list, p.n) ensures q in Footprint(p.file) { assert q in made[..p.n]; }
  }

  /** With every page on the list, the page map and the pages' owners are back as they were. */
  lemma AllListedRestores(p: Life)
    requires Lifetime(p) && AllListed(p.file)
    ensures p.v2.frames == p.v0.frames && p.v2.dir == p.v0.dir
    ensures Directory(p.v0.ram, p.v0.frames, p.v0.dir) && Directory(p.v2.ram, p.v0.frames, p.v0.dir)
    ensures p.m2.pages == p.m0.pages
    ensures SamePages(p.v0.ram, p.v2.ram, p.v0.frames, p.v0.dir)
  {
    hide Good, SameBytes, ImageLoaded, StaleRange, Made, Loadable, AllMapped, Footprint, PagesOf, HaveFrames, Kept;
    hide Weight;
    hide ProcessPages, ListedPages;
    LifePlaces(p);
    BegunParts(p);
    forall q ensures q in Footprint(p.file) <==> q in PagesOf(p.list, p.n) { TakenIsFootprint(p.file, q); }
    PlacesRestored(p.m0, p.m1, Footprint(p.file), PagesOf(p.list, p.n));
    forall q | 0 <= q < SELF * ENTRIES
      ensures Lookup(p.v2.ram, p.v0.frames, p.v0.dir, q) == Lookup(p.v0.ram, p.v0.frames, p.v0.dir, q)
    {
      if q in Footprint(p.file) {
        FootprintClear(p.v0, p.m0, p.file, q);
        ListedUnmapped(p.v2, p.list, p.n, q);
      }
    }
  }

  lemma PlacesRestored(m0: Mem, m1: Mem, touched: set<int>, dropped: set<int>)
    requires SamePlaces(m0, m1, touched) && (forall p :: p in touched <==> p in dropped)
    requires forall p :: p in touched ==> p !in m0.pages
    ensures m1.pages - dropped == m0.pages
  {
    var back := m1.pages - dropped;
    forall p ensures p in back <==> p in m0.pages {}
    forall p | p in back ensures back[p] == m0.pages[p] {}
  }

  lemma ListedUnmapped(v: View, list: seq<Word>, n: nat, p: nat)
    requires n <= |list| && AllUnmapped(v, list, n) && p in PagesOf(list, n)
    ensures Unmapped(v, p)
  {
    var k :| 0 <= k < n && PageOf(list[k]) == p;
    assert Unmapped(v, PageOf(list[k]));
  }

  /** Every page made has a frame. */
  lemma MadeMapped(m: Mem, image: seq<int>, q: int)
    requires HaveFrames(m, image) && AllMapped(m, STACK_END - USER_STACK_PAGES, STACK_END) && q in PagesMade(image)
    ensures q in m.pages
  {
  }

  /** A page that did not get onto the list stays mapped. */
  lemma UnlistedStays(p: Life, page: int)
    requires Lifetime(p) && page in ProcessPages(p.file) && page !in ListedPages(p.file)
    ensures page in p.m2.pages && page !in p.m0.pages && 0 <= page < SELF * ENTRIES && Unmapped(p.v0, page)
  {
    hide Good, Confined, Created, Loadable, Footprint, PagesOf, Kept, Weight, ProcessPages, ListedPages, SamePlaces;
    BegunParts(p);
    LifePlaces(p);
    TakenIsFootprint(p.file, page);
    FootprintClear(p.v0, p.m0, p.file, page);
  }

  /** Conservation. Creating, running and freeing a process restores the page map and the pages'
      owners if and only if every page that its file takes is among the first 64: by
      `ListedExactly`, for an image off the stack, if and only if it takes at most 60 pages. */
  lemma Conservation(p: Life)
    requires Lifetime(p)
    ensures Directory(p.v0.ram, p.v0.frames, p.v0.dir) && Directory(p.v2.ram, p.v0.frames, p.v0.dir)
    ensures p.m2.pages == p.m0.pages <==> AllListed(p.file)
    ensures SamePages(p.v0.ram, p.v2.ram, p.v0.frames, p.v0.dir) <==> AllListed(p.file)
  {
    hide Good, Loadable, Footprint, PagesOf, Created, ProcessPages, ListedPages;
    if AllListed(p.file) {
      AllListedRestores(p);
    } else {
      var page :| page in ProcessPages(p.file) && page !in ListedPages(p.file);
      UnlistedStays(p, page);
      GoodPage(p.v2, p.m2, page);
    }
  }

  /** Frames that a process made of this file takes and never gives back, besides page tables:
      one for each time a page is taken again, and one for each page that is not listed. */
  ghost function Leaked(file: seq<Byte>): int { |ProcessPages(file)| - |Elements(ListedPages(file))| }

  /** What a life costs: no frame comes back that was in use, and the count is off by exactly
      the tables built, which are never given back, and the frames leaked. */
  lemma FrameConservation(p: Life)
    requires Lifetime(p)
    ensures (p.v0.dir + 1) * ENTRIES <= |p.v0.ram| && (p.v0.dir + 1) * ENTRIES <= |p.v2.ram|
    ensures Tables(p.v0.ram, p.v0.dir) <= Tables(p.v2.ram, p.v0.dir) && p.v0.used <= p.v2.used
    ensures |p.v2.used| - |p.v0.used| ==
      |Tables(p.v2.ram, p.v0.dir)| - |Tables(p.v0.ram, p.v0.dir)| + Leaked(p.file)
  {
    hide Good, Lifetime, Tables, Weight, PagesOf, Footprint, ProcessPages, ListedPages, SamePlaces, Kept;
    LifePlaces(p);
    TablesKept(p);
    var listed := Elements(ListedPages(p.file));
    forall q ensures q in listed <==> q in PagesOf(p.list, p.n) { assert q in listed <==> q in ListedPages(p.file); }
    assert listed == PagesOf(p.list, p.n);
    DroppedWeight(p.m1, p.m2, PagesOf(p.list, p.n));
    PlacesKept(p.m0, p.m1, p.m2, Footprint(p.file), PagesOf(p.list, p.n));
    UsedGrew(p.v0, p.m0, p.v2, p.m2);
  }

  lemma DroppedWeight(m: Mem, m': Mem, dropped: set<int>)
    requires m' == m.(pages := m.pages - dropped) && forall q :: q in dropped ==> q in m.pages
    ensures Weight(m') == Weight(m) - |dropped|
  {
    forall q | q in dropped ensures q in m.pages.Keys {}
    assert m'.pages.Keys == m.pages.Keys - dropped;
  }

  /** What had a frame before the process still has it. */
  lemma PlacesKept(m0: Mem, m1: Mem, m2: Mem, touched: set<int>, dropped: set<int>)
    requires SamePlaces(m0, m1, touched) && m2 == m1.(pages := m1.pages - dropped) && dropped <= touched
    requires (forall q :: q in touched ==> q !in m0.pages) && Kept(m0, m1)
    ensures m0.reserved <= m2.reserved && m0.pages.Values <= m2.pages.Values
  {
    forall q | q in m0.pages ensures q in m2.pages && m2.pages[q] == m0.pages[q] { assert q !in touched; }
    MoreValues(m0.pages, m2.pages);
  }

  lemma MoreValues<K, V>(a: map<K, V>, b: map<K, V>)
    requires forall k :: k in a ==> k in b && b[k] == a[k]
    ensures a.Values <= b.Values
  {
    forall v | v in a.Values ensures v in b.Values {
      var k :| k in a && a[k] == v;
      assert b[k] == v;
    }
  }

  /** A process leaks no frame exactly when its pages fit its list, no two segments share a page
      and none has a page of the stack. */
  lemma NothingLeaked(file: seq<Byte>)
    requires Loadable(file) && |file| >= EHDR_SIZE
    ensures Leaked(file) >= 0
    ensures Leaked(file) == 0 <==> FitsList(file) && PagesApart(file) && ImagePages(file) !! StackPages()
  {
    hide PagesApart, Distinct, ImagePages, StackPages, Loadable, HeaderOf, PagesTaken;
    var image, stack := PagesTaken(file, HeaderOf(file).phnum), StackList(USER_STACK_PAGES);
    DistinctCount(ListedPages(file));
    ApartTakenOnce(file);
    StackOnce();
    DistinctAppend(image, stack);
    forall q ensures q in image <==> q in ImagePages(file) { TakenIsImage(file, q); }
    forall q ensures q in stack <==> q in StackPages() { InStack(q); }
  }

  lemma TablesKept(p: Life)
    requires Lifetime(p)
    ensures Good(p.v0, p.m0) && Good(p.v2, p.m2) && p.v2.dir == p.v0.dir && p.m2.reserved == p.m1.reserved
    ensures (p.v0.dir + 1) * ENTRIES <= |p.v0.ram| && (p.v0.dir + 1) * ENTRIES <= |p.v2.ram|
    ensures Tables(p.v0.ram, p.v0.dir) <= Tables(p.v2.ram, p.v0.dir)
  {
    hide Good, ImageLoaded, StaleRange, Made, Loadable, Settled, AllMapped, Footprint, PagesOf, SameBytes, HaveFrames;
    hide Kept, Weight;
  }

  /** With nothing taken away, the frames in use differ by the tables, the reserved frames and the pages. */
  lemma UsedGrew(v: View, m: Mem, v': View, m': Mem)
    requires Good(v, m) && Good(v', m') && v'.dir == v.dir
    requires m.reserved <= m'.reserved && m.pages.Values <= m'.pages.Values
    requires (v.dir + 1) * ENTRIES <= |v.ram| && (v.dir + 1) * ENTRIES <= |v'.ram|
    requires Tables(v.ram, v.dir) <= Tables(v'.ram, v.dir)
    ensures v.used <= v'.used
    ensures |v'.used| - |v.used| ==
      |Tables(v'.ram, v.dir)| - |Tables(v.ram, v.dir)| + Weight(m') - Weight(m)
  {
    hide Good, Tables;
    UsedParts(v, m);
    UsedParts(v', m');
    CountOf(v, m);
    CountOf(v', m');
  }

  lemma UsedParts(v: View, m: Mem)
    requires Good(v, m) && (v.dir + 1) * ENTRIES <= |v.ram|
    ensures v.used == m.reserved + {v.dir} + Tables(v.ram, v.dir) + m.pages.Values
  {
  }

  lemma CountOf(v: View, m: Mem)
    requires Good(v, m) && (v.dir + 1) * ENTRIES <= |v.ram|
    ensures |v.used| == |m.reserved| + 1 + |Tables(v.ram, v.dir)| + |m.pages|
  {
    OwnsCount(v, m.reserved, m.pages);
  }

  /** Once the process's two blocks are given back the heap's block list is what it was. */
  lemma HeapConservation(before: seq<H.Block>, created: seq<H.Block>, freed: seq<H.Block>, own: set<H.Grant>, lo: int,
                         hi: int)
    requires H.Canonical(before, lo, hi) && H.Canonical(freed, lo, hi)
    requires own !! H.Live(before) && H.Live(created) == H.Live(before) + own && H.Live(freed) == H.Live(created) - own
    ensures freed == before
  {
    assert H.Live(freed) == H.Live(before);
    H.CanonicalUnique(freed, before, lo, hi);
  }

  /** Every page on the list a process is created with has a frame, and so can be unmapped. */
  lemma CreatedDroppable(v0: View, m0: Mem, v: View, m: Mem, file: seq<Byte>, entry: Word, image: seq<int>,
                         list: seq<Word>, n: nat)
    requires Loadable(file) && Created(v0, m0, v, m, file, entry, image) && Listed(list, n, PagesMade(image))
    ensures n <= |list| && forall k :: 0 <= k < n ==> PdIndex(list[k]) < SELF && PageOf(list[k]) in m.pages
  {
    hide Good, ImageLoaded, StaleRange, Loadable, IsExecutable, HeaderOf, Kept, Weight, HaveFrames, AllMapped;
    hide PagesTaken;
    forall k | 0 <= k < n ensures PdIndex(list[k]) < SELF && PageOf(list[k]) in m.pages {
      var p := PagesMade(image)[k];
      assert p in PagesMade(image);
      TakenIsFootprint(file, p);
      MadeMapped(m, image, p);
      PageAddress(p);
    }
  }

  // ---- The user program ----

  /** One byte that a user program stores. */
  datatype Poke = Poke(virt: Word, b: Byte)

  /** The program keeps to its own pages, mapped or not. */
  ghost predicate InPages(program: seq<Poke>, pages: set<int>) {
    forall k :: 0 <= k < |program| ==> PageOf(program[k].virt) in pages
  }

  /** What the byte at `a` is after the stores, if it was `b` before. */
  function Poked(program: seq<Poke>, a: int, b: Byte): Byte {
    if program == [] then b
    else var last := program[|program| - 1];
         if last.virt == a then last.b else Poked(program[..|program| - 1], a, b)
  }

  lemma RanSelf(v: View, m: Mem)
    requires Good(v, m)
    ensures Ran(v, m, v)
  {
    hide Owns;
    GoodDirectory(v, m);
  }

  /** Another store continues a run. */
  lemma RanMore(v: View, m: Mem, v': View, virt: int, b: Byte, v'': View)
    requires Good(v, m) && Good(v', m) && Good(v'', m) && Ran(v, m, v') && Stored(v', m, virt, b, v'')
    ensures Ran(v, m, v'')
  {
    hide Good;
  }

  /** A page that had no frame still has none. */
  lemma RanSettled(v: View, m: Mem, v': View, p: nat)
    requires Ran(v, m, v') && SettledPage(v, m, p)
    ensures SettledPage(v', m, p)
  {
    hide Good;
  }

  /** A run of user code, store by store, until a store faults: it faults exactly on a page
      without a frame, every byte of the process holds what was stored there last, and the
      page map and the frames in use are what they were. */
  method RunProgram(vm: Vmm, program: seq<Poke>, ghost m: Mem) returns (done: nat)
    requires vm.Ready() && Good(vm.Now(), m)
    requires forall k :: 0 <= k < |program| ==>
      PdIndex(program[k].virt) < SELF && SettledPage(vm.Now(), m, PageOf(program[k].virt))
    modifies vm`ram
    ensures vm.Ready() && Good(old(vm.Now()), m) && Good(vm.Now(), m) && Ran(old(vm.Now()), m, vm.Now())
    ensures done <= |program| && forall k :: 0 <= k < done ==> PageOf(program[k].virt) in m.pages
    ensures done < |program| ==> PageOf(program[done].virt) !in m.pages
    ensures forall a :: 0 <= a && a / PAGE_SIZE in m.pages ==>
      Peek(vm.Now(), m, a) == Poked(program[..done], a, Peek(old(vm.Now()), m, a))
  {
    hide Good, Ran, Stored, FrameByte;
    ghost var v0 := vm.Now();
    RanSelf(v0, m);
    done := 0;
    while done < |program|
      invariant vm.Ready() && Good(vm.Now(), m) && Ran(v0, m, vm.Now())
      invariant done <= |program| && forall k :: 0 <= k < done ==> PageOf(program[k].virt) in m.pages
      invariant forall a :: 0 <= a && a / PAGE_SIZE in m.pages ==>
        Peek(vm.Now(), m, a) == Poked(program[..done], a, Peek(v0, m, a))
    {
      ghost var v := vm.Now();
      RanSettled(v0, m, v, PageOf(program[done].virt));
      var ok := StoreRing3(vm, program[done].virt, program[done].b, m);
      if !ok { return; }
      RanMore(v0, m, v, program[done].virt, program[done].b, vm.Now());
      PokedMore(v0, m, v, vm.Now(), program, done);
      done := done + 1;
    }
  }

  lemma PokedMore(v0: View, m: Mem, v: View, v': View, program: seq<Poke>, k: nat)
    requires k < |program| && Good(v0, m) && Good(v, m) && Good(v', m)
    requires Stored(v, m, program[k].virt, program[k].b, v')
    requires forall a :: 0 <= a && a / PAGE_SIZE in m.pages ==> Peek(v, m, a) == Poked(program[..k], a, Peek(v0, m, a))
    ensures forall a :: 0 <= a && a / PAGE_SIZE in m.pages ==>
      Peek(v', m, a) == Poked(program[..k + 1], a, Peek(v0, m, a))
  {
    hide Good, FrameByte;
    assert program[..k + 1][..k] == program[..k];
  }

  /** Every page of a process's footprint has a frame. */
  lemma FootprintMapped(v0: View, m0: Mem, v: View, m: Mem, file: seq<Byte>, entry: Word, image: seq<int>, virt: Word)
    requires Loadable(file) && Created(v0, m0, v, m, file, entry, image) && PageOf(virt) in Footprint(file)
    ensures PdIndex(virt) < SELF && PageOf(virt) in m.pages
  {
    hide Good, ImageLoaded, StaleRange, Loadable, IsExecutable, HeaderOf, Footprint, Kept, Weight, HaveFrames;
    hide AllMapped, PagesTaken;
    TakenIsFootprint(file, PageOf(virt));
    MadeMapped(m, image, PageOf(virt));
    PageIndices(virt);
  }

  // ---- Running and freeing ----

  /** What the life of a process leaves behind: the page map and the pages' owners are back
      exactly when the page list names all pages, and more frames are in use by exactly the
      tables built and the frames leaked. */
  ghost predicate Settlement(p: Life) {
    && p.v2.frames == p.v0.frames && p.v2.dir == p.v0.dir
    && Directory(p.v0.ram, p.v0.frames, p.v0.dir) && Directory(p.v2.ram, p.v0.frames, p.v0.dir)
    && (p.v0.dir + 1) * ENTRIES <= |p.v0.ram| && (p.v0.dir + 1) * ENTRIES <= |p.v2.ram|
    && (p.m2.pages == p.m0.pages <==> AllListed(p.file))
    && (SamePages(p.v0.ram, p.v2.ram, p.v0.frames, p.v0.dir) <==> AllListed(p.file))
    && |p.v2.used| - |p.v0.used| ==
         |Tables(p.v2.ram, p.v0.dir)| - |Tables(p.v0.ram, p.v0.dir)| + Leaked(p.file)
  }

  lemma LifeSettled(p: Life)
    requires Lifetime(p)
    ensures Settlement(p)
  {
    hide Lifetime, AllListed, Leaked, Tables;
    LifeViews(p);
    Conservation(p);
    FrameConservation(p);
  }

  lemma LifeViews(p: Life)
    requires Lifetime(p)
    ensures p.v2.frames == p.v0.frames && p.v2.dir == p.v0.dir
    ensures Directory(p.v0.ram, p.v0.frames, p.v0.dir) && Directory(p.v2.ram, p.v0.frames, p.v0.dir)
    ensures (p.v0.dir + 1) * ENTRIES <= |p.v0.ram| && (p.v0.dir + 1) * ENTRIES <= |p.v2.ram|
  {
    hide Good, ImageLoaded, StaleRange, Made, Loadable, Settled, AllMapped, Footprint, PagesOf, SameBytes, HaveFrames;
    hide Kept, Weight;
  }

  lemma ProgramMapped(p: Life, program: seq<Poke>)
    requires Begun(p) && InPages(program, Footprint(p.file))
    ensures forall k :: 0 <= k < |program| ==> PdIndex(program[k].virt) < SELF && PageOf(program[k].virt) in p.m1.pages
  {
    hide Loadable, Created, Footprint, Good, ClearPage, Confined, Listed;
    forall k | 0 <= k < |program| ensures PdIndex(program[k].virt) < SELF && PageOf(program[k].virt) in p.m1.pages {
      FootprintMapped(p.v0, p.m0, p.v1, p.m1, p.file, p.entry, p.image, program[k].virt);
    }
  }

  /** What is on the list can be unmapped after the program has run. */
  lemma RanDroppable(p: Life)
    requires Begun(p) && Ran(p.v1, p.m1, p.u1)
    ensures p.n <= |p.list| && Droppable(p.u1, p.m1, p.list, p.n)
  {
    hide Ran, Created, Confined, Listed, Good, ClearPage;
    CreatedDroppable(p.v0, p.m0, p.v1, p.m1, p.file, p.entry, p.image, p.list, p.n);
  }

  /** The program has run to its end: every byte of the process holds what was stored there last. */
  ghost predicate Completed(p: Life, program: seq<Poke>) {
    && Good(p.v1, p.m1) && Good(p.u1, p.m1)
    && forall a :: 0 <= a && a / PAGE_SIZE in p.m1.pages ==>
         Peek(p.u1, p.m1, a) == Poked(program, a, Peek(p.v1, p.m1, a))
  }

  lemma RanToEnd(p: Life, program: seq<Poke>, done: nat)
    requires Begun(p) && InPages(program, Footprint(p.file)) && Good(p.v1, p.m1) && Good(p.u1, p.m1)
    requires done <= |program| && (done < |program| ==> PageOf(program[done].virt) !in p.m1.pages)
    requires forall a :: 0 <= a && a / PAGE_SIZE in p.m1.pages ==>
      Peek(p.u1, p.m1, a) == Poked(program[..done], a, Peek(p.v1, p.m1, a))
    ensures done == |program| && Completed(p, program)
  {
    hide Begun, InPages, Footprint, Good;
    ProgramMapped(p, program);
    assert program[..|program|] == program;
  }

  /** The second half of the shell's `exec`: a created process runs its program, which never
      faults on the process's own pages, and is freed. The heap's block list is what it was
      before the process was created. */
  method RunAndFree(vm: Vmm, heap: H.Heap, proc: Process, program: seq<Poke>, ghost born: Life,
                    ghost before: seq<H.Block>)
    returns (done: nat, ghost p: Life)
    requires vm.Ready() && Good(vm.Now(), born.m1) && heap.Valid() && proc.mappedPages != vm.pmm.bitmap
    requires Begun(born) && born.v1 == vm.Now() && proc.Backed(heap.blocks)
    requires born.list == proc.mappedPages[..] && born.n == proc.mappedCount <= |born.list|
    requires InPages(program, Footprint(born.file))
    requires H.Canonical(before, heap.start, heap.start + H.HEAP_SIZE)
    requires Grants(proc) !! H.Live(before) && H.Live(heap.blocks) == H.Live(before) + Grants(proc)
    modifies vm`ram, vm.pmm`usedBlocks, vm.pmm.bitmap, heap
    ensures vm.Ready() && Good(vm.Now(), p.m2) && heap.Valid() && heap.blocks == before
    ensures done == |program| && Completed(p, program)
    ensures Lifetime(p) && Settlement(p) && p.v2 == vm.Now()
    ensures p == born.(u1 := p.u1, v2 := p.v2, m2 := p.m2)
  {
    hide Begun, Good, Dropped, Droppable, Ran, Settlement, Footprint, InPages, Completed;
    p := born;
    ghost var created := heap.blocks;
    ProgramMapped(p, program);
    done := RunProgram(vm, program, p.m1);
    p := p.(u1 := vm.Now());
    BegunKept(born, p);
    RanToEnd(p, program, done);
    RanDroppable(p);
    ghost var m2 := ProcessFree(vm, heap, proc, p.m1);
    ghost var q := p.(v2 := vm.Now(), m2 := m2);
    BegunKept(p, q);
    CompletedKept(p, q, program);
    p := q;
    HeapConservation(before, created, heap.blocks, Grants(proc), heap.start, heap.start + H.HEAP_SIZE);
    LifeSettled(p);
  }

  lemma BegunKept(p: Life, q: Life)
    requires Begun(p) && q == p.(u1 := q.u1, v2 := q.v2, m2 := q.m2)
    ensures Begun(q)
  {
  }

  lemma CompletedKept(p: Life, q: Life, program: seq<Poke>)
    requires Completed(p, program) && q == p.(v2 := q.v2, m2 := q.m2)
    ensures Completed(q, program)
  {
  }
}
