/** The ELF loader: what the program headers ask for, and the image it leaves in memory
    (TIS ELF specification 1.2, book I, chapter 2). */
module Elf {
  import opened Bits
  import opened Bytes
  import opened Collections
  import opened OpenFile
  import opened Paging
  import opened Vmm
  import opened UserMemory

  const WORDS := 0x1_0000_0000
  const EHDR_SIZE := 52
  const PHDR_SIZE := 32
  const ET_EXEC := 2
  const EM_386 := 3
  const PT_LOAD := 1
  const CHUNK := 512

  // ---- Headers ----

  datatype Header = Header(entry: Word, phoff: Word, phentsize: nat, phnum: nat)

  datatype Segment = Segment(offset: Word, vaddr: Word, filesz: Word, memsz: Word)

  predicate IsExecutable(bs: seq<Byte>)
    requires |bs| == EHDR_SIZE
  {
    bs[0] == 0x7F && bs[1] == 0x45 && bs[2] == 0x4C && bs[3] == 0x46
    && GetU16(bs, 16) == ET_EXEC && GetU16(bs, 18) == EM_386
  }

  function ParseHeader(bs: seq<Byte>): Header
    requires |bs| == EHDR_SIZE
  {
    Header(GetU32(bs, 24), GetU32(bs, 28), GetU16(bs, 42), GetU16(bs, 44))
  }

  predicate IsLoad(bs: seq<Byte>)
    requires |bs| == PHDR_SIZE
  {
    GetU32(bs, 0) == PT_LOAD && GetU32(bs, 20) != 0
  }

  function ParseSegment(bs: seq<Byte>): Segment
    requires |bs| == PHDR_SIZE
  {
    Segment(GetU32(bs, 4), GetU32(bs, 8), GetU32(bs, 16), GetU32(bs, 20))
  }

  /** Where the file keeps program header i; the 32-bit sum may wrap. */
  function PhdrOffset(h: Header, i: nat): Word { (h.phoff + Times(i, h.phentsize)) % WORDS }

  function HeaderOf(file: seq<Byte>): Header
    requires |file| >= EHDR_SIZE
  {
    ParseHeader(file[..EHDR_SIZE])
  }

  /** Program header i is in the file and asks for memory. */
  predicate HasSegment(file: seq<Byte>, i: nat) {
    && |file| >= EHDR_SIZE && i < HeaderOf(file).phnum
    && var at := PhdrOffset(HeaderOf(file), i); at + PHDR_SIZE <= |file| && IsLoad(file[at..at + PHDR_SIZE])
  }

  function SegmentOf(file: seq<Byte>, i: nat): Segment
    requires HasSegment(file, i)
  {
    var at := PhdrOffset(HeaderOf(file), i);
    ParseSegment(file[at..at + PHDR_SIZE])
  }

  // ---- Where segments go ----

  function First(s: Segment): nat { s.vaddr / PAGE_SIZE }

  function End(s: Segment): nat { (s.vaddr + s.memsz + PAGE_SIZE - 1) / PAGE_SIZE }

  /** The pages of a segment are those that hold one of its bytes in memory. */
  lemma PagesTouched(s: Segment, p: int)
    ensures s.memsz > 0 ==> (First(s) <= p < End(s) <==> exists k :: 0 <= k < s.memsz && Touches(s, k, p))
  {
    if s.memsz > 0 {
      if First(s) <= p < End(s) {
        var k := if p == First(s) then 0 else p * 4096 - s.vaddr;
        assert 0 <= k < s.memsz && Touches(s, k, p);
      }
      if k :| 0 <= k < s.memsz && Touches(s, k, p) { InsidePages(s, k); }
    }
  }

  /** Byte k of the segment lies on page p. */
  predicate Touches(s: Segment, k: int, p: int) { (s.vaddr + k) / 4096 == p }

  lemma InsidePages(s: Segment, k: nat)
    requires k < s.memsz
    ensures First(s) <= (s.vaddr + k) / 4096 < End(s)
  {
  }

  /** How many bytes a segment fills. */
  function Extent(s: Segment): (n: nat)
    ensures n >= s.filesz && n >= s.memsz
  {
    if s.filesz <= s.memsz then s.memsz else s.filesz
  }

  /** The segment has its pages below the recursive window, and its file bytes stay within them. */
  predicate Placeable(s: Segment) {
    s.vaddr + s.memsz + PAGE_SIZE - 1 < WORDS && End(s) <= SELF * ENTRIES && s.vaddr + s.filesz <= End(s) * PAGE_SIZE
  }

  predicate Apart(s: Segment, t: Segment) { End(s) <= First(t) || End(t) <= First(s) }

  ghost predicate Loadable(file: seq<Byte>) {
    && |file| < WORDS
    && (forall i :: HasSegment(file, i) ==> Placeable(SegmentOf(file, i)))
  }

  /** No two segments share a page. */
  ghost predicate PagesApart(file: seq<Byte>) {
    forall i, j :: HasSegment(file, i) && HasSegment(file, j) && i != j ==>
      Apart(SegmentOf(file, i), SegmentOf(file, j))
  }

  predicate InSegment(file: seq<Byte>, i: nat, p: int) {
    HasSegment(file, i) && First(SegmentOf(file, i)) <= p < End(SegmentOf(file, i))
  }

  /** Page p belongs to one of the first n segments. */
  ghost predicate InImage(file: seq<Byte>, n: nat, p: int) { exists i: nat :: i < n && InSegment(file, i, p) }

  ghost function ImagePages(file: seq<Byte>): set<int> {
    set p | 0 <= p < SELF * ENTRIES && |file| >= EHDR_SIZE && InImage(file, HeaderOf(file).phnum, p)
  }

  /** The file holds all the bytes that the segment asks for. */
  predicate InFile(file: seq<Byte>, s: Segment) { s.filesz > 0 ==> s.offset + s.filesz <= |file| }

  /** The first n file bytes of a segment. */
  function FileBytes(file: seq<Byte>, s: Segment, n: nat): (bs: seq<Byte>)
    requires n > 0 ==> s.offset + n <= |file|
    ensures |bs| == n
  {
    if n == 0 then [] else file[s.offset..s.offset + n]
  }

  /** Program header i is missing, or names bytes that the file does not have, or page 0. */
  predicate BadHeader(file: seq<Byte>, i: nat)
    requires |file| >= EHDR_SIZE
  {
    || PhdrOffset(HeaderOf(file), i) + PHDR_SIZE > |file|
    || (HasSegment(file, i) && (!InFile(file, SegmentOf(file, i)) || First(SegmentOf(file, i)) == 0))
  }

  ghost predicate AnyBadHeader(file: seq<Byte>, n: nat)
    requires |file| >= EHDR_SIZE
  {
    exists i: nat :: i < n && BadHeader(file, i)
  }

  /** What elf_load can never load: no x86 executable, a bad program header, or entry address 0. */
  ghost predicate Unloadable(file: seq<Byte>) {
    || |file| < EHDR_SIZE || !IsExecutable(file[..EHDR_SIZE]) || HeaderOf(file).entry == 0
    || AnyBadHeader(file, HeaderOf(file).phnum)
  }

  /** The bytes a segment stands for: those of the file, then zeros. */
  function SegmentImage(file: seq<Byte>, s: Segment): (image: seq<Byte>)
    requires InFile(file, s)
    ensures |image| == Extent(s)
  {
    FileBytes(file, s, s.filesz) + Zeros(Extent(s) - s.filesz)
  }

  function Zeros(n: nat): (z: seq<Byte>)
    ensures |z| == n
  {
    seq(n, _ => 0)
  }

  // ---- Pages that are free to take, and pages that have been ----

  ghost predicate ClearPage(v: View, m: Mem, p: nat) { p !in m.pages && Unmapped(v, p) }

  /** The page has its frame, or its frame was lost and an access to it faults. */
  ghost predicate SettledPage(v: View, m: Mem, p: nat) { p in m.pages || Unmapped(v, p) }

  ghost predicate Settled(v: View, m: Mem, lo: nat, hi: nat) {
    forall p :: lo <= p < hi ==> SettledPage(v, m, p)
  }

  ghost predicate AllMapped(m: Mem, lo: nat, hi: nat) { forall p :: lo <= p < hi ==> p in m.pages }

  lemma StillSettled(v: View, m: Mem, v': View, m': Mem, touched: set<int>, lo: nat, hi: nat)
    requires Confined(v, m, v', m', touched) && Settled(v, m, lo, hi) && hi <= SELF * ENTRIES
    requires forall p: nat :: p in touched && lo <= p < hi ==> SettledPage(v', m', p)
    ensures Settled(v', m', lo, hi)
  {
    hide Good;
    forall p | lo <= p < hi ensures SettledPage(v', m', p) { assert SettledPage(v, m, p); }
  }

  // ---- The list of pages a process keeps ----

  function Range(lo: int, hi: int): (r: seq<int>)
    requires lo <= hi
    ensures |r| == hi - lo && forall k :: 0 <= k < |r| ==> r[k] == lo + k
  {
    seq(hi - lo, k => lo + k)
  }

  /** `made` has been appended to the list, as far as there was room. */
  ghost predicate Recorded(before: seq<Word>, n: nat, after: seq<Word>, n': nat, made: seq<int>) {
    && |after| == |before| && n <= |before| && n' == (if n + |made| <= |before| then n + |made| else |before|)
    && after[..n] == before[..n]
    && forall k :: 0 <= k < |made| && n + k < |after| ==> after[n + k] == made[k] * PAGE_SIZE
  }

  lemma RecordedMore(a: seq<Word>, n: nat, b: seq<Word>, n': nat, c: seq<Word>, n'': nat, x: seq<int>, y: seq<int>)
    requires Recorded(a, n, b, n', x) && Recorded(b, n', c, n'', y)
    ensures Recorded(a, n, c, n'', x + y)
  {
    forall k | 0 <= k < |x + y| && n + k < |c| ensures c[n + k] == (x + y)[k] * PAGE_SIZE {
      if k < |x| {
        assert c[n + k] == c[..n'][n + k] == b[..n'][n + k] == b[n + k];
      } else {
        assert n' == n + |x| && c[n' + (k - |x|)] == y[k - |x|] * PAGE_SIZE;
      }
    }
    assert c[..n] == c[..n'][..n] == b[..n'][..n] == b[..n];
  }

  lemma RecordedNone(a: seq<Word>, n: nat, lo: int)
    requires n <= |a|
    ensures Recorded(a, n, a, n, Range(lo, lo))
  {
  }

  /** One more page has been appended to the list, or there was no room for it. */
  lemma RecordedPush(a: seq<Word>, n: nat, b: seq<Word>, n': nat, c: seq<Word>, n'': nat, x: seq<int>, page: int)
    requires Recorded(a, n, b, n', x)
    requires if n' < |b| then 0 <= page * PAGE_SIZE <= FULL && c == b[n' := page * PAGE_SIZE] && n'' == n' + 1
             else c == b && n'' == n'
    ensures Recorded(a, n, c, n'', x + [page])
  {
    assert Recorded(b, n', c, n'', [page]);
    RecordedMore(a, n, b, n', c, n'', x, [page]);
  }

  lemma RecordedOne(a: seq<Word>, n: nat, b: seq<Word>, n': nat, c: seq<Word>, n'': nat, lo: int, page: int)
    requires lo <= page && Recorded(a, n, b, n', Range(lo, page))
    requires if n' < |b| then 0 <= page * PAGE_SIZE <= FULL && c == b[n' := page * PAGE_SIZE] && n'' == n' + 1
             else c == b && n'' == n'
    ensures Recorded(a, n, c, n'', Range(lo, page + 1))
  {
    hide Recorded;
    RecordedPush(a, n, b, n', c, n'', Range(lo, page), page);
    assert Range(lo, page + 1) == Range(lo, page) + [page];
  }

  lemma PageAddress(page: nat)
    requires page < SELF * ENTRIES
    ensures page * PAGE_SIZE <= FULL && PdIndex(page * PAGE_SIZE) < SELF && PageOf(page * PAGE_SIZE) == page
  {
  }

  // ---- Mapping a segment ----

  /** vmm_alloc_page for every page that the segment touches. */
  method MapSegment(vm: Vmm, s: Segment, pages: array<Word>, count: nat, ghost m: Mem)
    returns (ok: bool, n: nat, ghost m': Mem)
    requires vm.Ready() && Good(vm.Now(), m) && Placeable(s) && Settled(vm.Now(), m, First(s), End(s))
    requires count <= pages.Length && pages != vm.pmm.bitmap
    modifies vm`ram, vm.pmm`usedBlocks, vm.pmm.bitmap, pages
    ensures vm.Ready() && Confined(old(vm.Now()), m, vm.Now(), m', Interval(First(s), End(s)))
    ensures n <= pages.Length && Settled(vm.Now(), m', First(s), End(s)) && First(s) <= End(s)
    ensures ok ==> Recorded(old(pages[..]), count, pages[..], n, Range(First(s), End(s)))
    ensures ok && First(s) < End(s) ==> First(s) > 0
    ensures !ok ==> First(s) == 0 || NoFrame(vm.Now())
    ensures ok ==> AllMapped(m', First(s), End(s)) || NoFrame(vm.Now())
    ensures Kept(m, m') && (ok ==> Weight(m') == Weight(m) + (End(s) - First(s)))
    ensures Good(vm.Now(), m') && Idle(old(vm.Now()), vm.Now())
    ensures ok ==> StaleRange(old(vm.Now()), vm.Now(), m', First(s), End(s))
  {
    hide Good, Confined, Recorded, NoFrame, Kept, Weight, Idle, StaleRange, Settled, AllMapped;
    ghost var v0 := vm.Now();
    ghost var touched := Interval(First(s), End(s));
    ghost var page := First(s);
    var vaddr: nat := s.vaddr / PAGE_SIZE * PAGE_SIZE;
    var segEnd := (s.vaddr + s.memsz + PAGE_SIZE - 1) % WORDS / PAGE_SIZE * PAGE_SIZE;
    n, m' := count, m;
    ConfinedSelf(v0, m, touched);
    KeptSelf(m);
    RecordedNone(pages[..], count, First(s));
    NoneTaken(v0, m, First(s));
    while vaddr < segEnd
      invariant n <= pages.Length
      invariant vaddr == page * PAGE_SIZE && segEnd == End(s) * PAGE_SIZE && First(s) <= page <= End(s)
      invariant vm.Ready() && Good(vm.Now(), m') && Confined(v0, m, vm.Now(), m', touched)
      invariant Settled(vm.Now(), m', First(s), End(s))
      invariant Recorded(old(pages[..]), count, pages[..], n, Range(First(s), page))
      invariant page > First(s) ==> First(s) > 0
      invariant AllMapped(m', First(s), page) || NoFrame(vm.Now())
      invariant Kept(m, m') && Weight(m') == Weight(m) + (page - First(s))
      invariant Idle(v0, vm.Now()) && StaleRange(v0, vm.Now(), m', First(s), page)
    {
      PageAddress(page);
      var got;
      got, m' := MapNext(vm, vaddr, First(s), page, End(s), v0, m, m');
      if !got { return false, n, m'; }
      ghost var list := pages[..];
      ghost var k := n;
      if n < pages.Length {
        pages[n] := vaddr;
        n := n + 1;
      }
      RecordedOne(old(pages[..]), count, list, k, pages[..], n, First(s), page);
      vaddr := vaddr + PAGE_SIZE;
      page := page + 1;
    }
    ok := true;
  }

  /** One turn of the loop: vmm_alloc_page for the next page. */
  method MapNext(vm: Vmm, vaddr: Word, ghost lo: nat, ghost page: nat, ghost hi: nat,
                 ghost v0: View, ghost m0: Mem, ghost m: Mem)
    returns (got: bool, ghost m': Mem)
    requires lo <= page < hi <= SELF * ENTRIES && vaddr == page * PAGE_SIZE
    requires PdIndex(vaddr) < SELF && PageOf(vaddr) == page
    requires vm.Ready() && Good(vm.Now(), m) && Confined(v0, m0, vm.Now(), m, Interval(lo, hi))
    requires Settled(vm.Now(), m, lo, hi) && Kept(m0, m) && Idle(v0, vm.Now()) && StaleRange(v0, vm.Now(), m, lo, page)
    requires AllMapped(m, lo, page) || NoFrame(vm.Now())
    modifies vm`ram, vm.pmm`usedBlocks, vm.pmm.bitmap
    ensures vm.Ready() && Good(vm.Now(), m') && Confined(v0, m0, vm.Now(), m', Interval(lo, hi))
    ensures Settled(vm.Now(), m', lo, hi) && Kept(m0, m') && Idle(v0, vm.Now())
    ensures got ==> vaddr != 0 && Weight(m') == Weight(m) + 1
    ensures got ==> StaleRange(v0, vm.Now(), m', lo, page + 1) && (AllMapped(m', lo, page + 1) || NoFrame(vm.Now()))
    ensures !got ==> vaddr == 0 || NoFrame(vm.Now())
  {
    hide Good, Confined, NoFrame, Kept, Weight, Idle, StalePage;
    ghost var v := vm.Now();
    assert SettledPage(v, m, page);
    var r;
    r, m' := AllocUser(vm, vaddr, PRESENT + WRITABLE + USER, m);
    AllocatedNext(v0, m0, v, m, vm.Now(), m', page, lo, hi);
    IdleTrans(v0, v, vm.Now());
    got := r != 0;
    if got { StaleNext(v0, v, m, vm.Now(), m', lo, page, page); }
  }

  /** Allocating never takes a page away, nor a frame from the reserved ones. */
  ghost predicate Kept(m: Mem, m': Mem) { m.reserved <= m'.reserved && forall p :: p in m.pages ==> p in m'.pages }

  lemma KeptSelf(m: Mem)
    ensures Kept(m, m)
  {
  }

  lemma KeptTrans(m: Mem, m': Mem, m'': Mem)
    requires Kept(m, m') && Kept(m', m'')
    ensures Kept(m, m'')
  {
  }

  /** Every byte of these pages, where they have frames, is what the frame held in v0. */
  ghost predicate StaleRange(v0: View, v: View, m: Mem, lo: nat, hi: nat)
    requires Good(v, m)
  {
    forall p :: lo <= p < hi ==> StalePage(v0, v, m, p)
  }

  lemma NoneTaken(v: View, m: Mem, lo: nat)
    requires Good(v, m)
    ensures Idle(v, v) && StaleRange(v, v, m, lo, lo) && AllMapped(m, lo, lo)
  {
    IdleSelf(v);
  }

  lemma StaleNext(v0: View, v: View, m: Mem, v': View, m': Mem, lo: nat, hi: nat, page: nat)
    requires Good(v, m) && StaleRange(v0, v, m, lo, hi) && Confined(v, m, v', m', {page}) && Idle(v0, v) && Good(v', m')
    requires StalePage(v, v', m', page) && !(lo <= page < hi)
    ensures StaleRange(v0, v', m', lo, hi) && StalePage(v0, v', m', page)
  {
    hide Good, Idle, Stale, SameBytes, SameMap;
    forall a | 0 <= a && a / PAGE_SIZE == page && page in m'.pages ensures Stale(v0, v', m', a) {
      StaleSince(v0, v, v', m', a);
    }
    forall p | lo <= p < hi ensures StalePage(v0, v', m', p) {
      forall a | 0 <= a && a / PAGE_SIZE == p && p in m'.pages ensures Stale(v0, v', m', a) {
        assert StalePage(v0, v, m, p);
        StaleKept(v0, v, m, v', m', {page}, a);
      }
    }
  }

  /** One more page of a segment has been allocated. */
  lemma AllocatedNext(v0: View, m0: Mem, v: View, m: Mem, v': View, m': Mem, page: nat, lo: nat, hi: nat)
    requires Confined(v0, m0, v, m, Interval(lo, hi)) && Confined(v, m, v', m', {page})
    requires lo <= page < hi <= SELF * ENTRIES
    requires Settled(v, m, lo, hi) && Kept(m0, m) && m.reserved <= m'.reserved
    requires page in m'.pages || (m'.pages == m.pages && Unmapped(v', page) && NoFrame(v'))
    ensures AllMapped(m, lo, page) ==> AllMapped(m', lo, page + 1) || NoFrame(v')
    ensures Good(v', m') && Confined(v0, m0, v', m', Interval(lo, hi)) && Settled(v', m', lo, hi) && Kept(m0, m')
  {
    hide Good;
    ConfinedMore(v, m, v', m', {page}, Interval(lo, hi));
    ConfinedTrans(v0, m0, v, m, v', m', Interval(lo, hi));
    StillSettled(v, m, v', m', {page}, lo, hi);
    forall p | p in m.pages ensures p in m'.pages {
      if p != page { assert p !in {page}; }
    }
  }

  // ---- Filling a segment ----

  ghost predicate Mapped(m: Mem, a: int) { a / PAGE_SIZE in m.pages }

  /** From `dst` on memory holds `bs`; every other byte and the page map are what they were. */
  ghost predicate Filled(v: View, m: Mem, dst: nat, bs: seq<Byte>, v': View) {
    && Good(v, m) && Good(v', m) && v'.frames == v.frames && v'.dir == v.dir && v'.used == v.used
    && Directory(v.ram, v.frames, v.dir) && Directory(v'.ram, v.frames, v.dir)
    && SamePages(v.ram, v'.ram, v.frames, v.dir)
    && Tables(v'.ram, v.dir) == Tables(v.ram, v.dir) && Idle(v, v')
    && (forall a :: dst <= a < dst + |bs| ==> Mapped(m, a))
    && (forall a :: 0 <= a && a / PAGE_SIZE in m.pages ==>
         Peek(v', m, a) == if dst <= a < dst + |bs| then bs[a - dst] else Peek(v, m, a))
  }

  lemma FilledNone(v: View, m: Mem, dst: nat)
    requires Good(v, m) && Directory(v.ram, v.frames, v.dir)
    ensures Filled(v, m, dst, [], v)
  {
    hide Good;
  }

  lemma FilledMore(v: View, m: Mem, dst: nat, x: seq<Byte>, v': View, y: seq<Byte>, v'': View)
    requires Filled(v, m, dst, x, v') && Filled(v', m, dst + |x|, y, v'')
    ensures Filled(v, m, dst, x + y, v'')
  {
    hide Good;
    forall a | dst <= a < dst + |x + y| ensures Mapped(m, a) {
      if a >= dst + |x| { assert Mapped(m, a); }
    }
    forall a | 0 <= a && a / PAGE_SIZE in m.pages
      ensures Peek(v'', m, a) == if dst <= a < dst + |x + y| then (x + y)[a - dst] else Peek(v, m, a)
    {
      assert Peek(v', m, a) == if dst <= a < dst + |x| then x[a - dst] else Peek(v, m, a);
    }
  }

  lemma FilledOne(v: View, m: Mem, dst: nat, x: seq<Byte>, v': View, b: Byte, v'': View)
    requires Filled(v, m, dst, x, v') && Good(v'', m) && Mapped(m, dst + |x|) && Stored(v', m, dst + |x|, b, v'')
    ensures Filled(v, m, dst, x + [b], v'')
  {
    hide Good;
    assert Filled(v', m, dst + |x|, [b], v'');
    FilledMore(v, m, dst, x, v', [b], v'');
  }

  lemma FilledConfined(v: View, m: Mem, dst: nat, bs: seq<Byte>, v': View, lo: nat, hi: nat)
    requires Filled(v, m, dst, bs, v') && lo * PAGE_SIZE <= dst && dst + |bs| <= hi * PAGE_SIZE
    ensures Confined(v, m, v', m, Interval(lo, hi))
  {
    hide Good;
    forall a | 0 <= a && a / PAGE_SIZE in m.pages && a / PAGE_SIZE !in Interval(lo, hi)
      ensures Peek(v', m, a) == Peek(v, m, a)
    {
      assert !Within(lo, a / PAGE_SIZE, hi);
      PageOfByte(a, lo, hi);
    }
  }

  lemma PageOfByte(a: nat, lo: nat, hi: nat)
    ensures lo * PAGE_SIZE <= a < hi * PAGE_SIZE <==> lo <= a / PAGE_SIZE < hi
  {
  }

  lemma FilledSettled(v: View, m: Mem, dst: nat, bs: seq<Byte>, v': View, lo: nat, hi: nat)
    requires Filled(v, m, dst, bs, v') && Settled(v, m, lo, hi) && hi <= SELF * ENTRIES
    ensures Settled(v', m, lo, hi)
  {
    hide Good;
    forall p | lo <= p < hi ensures SettledPage(v', m, p) { assert SettledPage(v, m, p); }
  }

  datatype Status = Done | Refused | Faulted

  /** Stores the bytes of a buffer one after the other. */
  method StoreBytes(vm: Vmm, dst: nat, bs: seq<Byte>, ghost s: Segment, ghost m: Mem) returns (ok: bool)
    requires vm.Ready() && Good(vm.Now(), m) && Placeable(s) && Settled(vm.Now(), m, First(s), End(s))
    requires s.vaddr <= dst && dst + |bs| <= End(s) * PAGE_SIZE
    modifies vm`ram
    ensures vm.Ready() && Confined(old(vm.Now()), m, vm.Now(), m, Interval(First(s), End(s)))
    ensures Good(vm.Now(), m) && Settled(vm.Now(), m, First(s), End(s))
    ensures vm.Now().used == old(vm.Now()).used && vm.Now().frames == old(vm.Now()).frames
    ensures if ok then Filled(old(vm.Now()), m, dst, bs, vm.Now()) else !AllMapped(m, First(s), End(s))
  {
    hide Good, Filled, Stored, Confined, Settled;
    ghost var v0 := vm.Now();
    FilledNone(v0, m, dst);
    for j := 0 to |bs|
      invariant vm.Ready() && Good(vm.Now(), m) && Filled(v0, m, dst, bs[..j], vm.Now())
    {
      ghost var v := vm.Now();
      FilledWithin(v0, m, dst, bs[..j], v, s, dst + j);
      ok := StoreUser(vm, dst + j, bs[j], m);
      if !ok {
        PageOfByte(dst + j, First(s), End(s));
        return;
      }
      FilledOne(v0, m, dst, bs[..j], v, bs[j], vm.Now());
      assert bs[..j + 1] == bs[..j] + [bs[j]];
    }
    assert bs[..|bs|] == bs;
    FilledConfined(v0, m, dst, bs, vm.Now(), First(s), End(s));
    FilledSettled(v0, m, dst, bs, vm.Now(), First(s), End(s));
    ok := true;
  }

  /** A part of a segment has been filled; the byte at `a` is stored next. */
  lemma FilledWithin(v0: View, m: Mem, dst: nat, bs: seq<Byte>, v: View, s: Segment, a: nat)
    requires Filled(v0, m, dst, bs, v) && Placeable(s) && Settled(v0, m, First(s), End(s))
    requires s.vaddr <= dst && dst + |bs| <= End(s) * PAGE_SIZE && s.vaddr <= a < End(s) * PAGE_SIZE
    ensures a <= FULL && PdIndex(a) < SELF && (PageOf(a) in m.pages || Unmapped(v, PageOf(a)))
    ensures Confined(v0, m, v, m, Interval(First(s), End(s))) && Settled(v, m, First(s), End(s))
  {
    FilledConfined(v0, m, dst, bs, v, First(s), End(s));
    FilledSettled(v0, m, dst, bs, v, First(s), End(s));
    PageOfByte(a, First(s), End(s));
    assert SettledPage(v, m, a / PAGE_SIZE);
  }

  // ---- Loading ----

  lemma FileBytesNone(file: seq<Byte>, s: Segment)
    ensures FileBytes(file, s, 0) == []
  {
  }

  lemma FileBytesMore(file: seq<Byte>, s: Segment, n: nat, bs: seq<Byte>)
    requires |bs| > 0 && s.offset + n + |bs| <= |file| && bs == file[s.offset + n..s.offset + n + |bs|]
    ensures FileBytes(file, s, n) + bs == FileBytes(file, s, n + |bs|)
  {
  }

  /** The file's bytes, a chunk at a time; a read may bring less than was asked for. */
  method CopySegment(vm: Vmm, file: File, s: Segment, ghost m: Mem) returns (status: Status)
    requires file.Ready()
    requires vm.Ready() && Good(vm.Now(), m) && Placeable(s) && Settled(vm.Now(), m, First(s), End(s))
    requires Directory(vm.ram, vm.pmm.maxBlocks, vm.dir) && |file.content| < WORDS
    modifies vm`ram, file.heap
    ensures file.Ready() && file.heap.blocks == old(file.heap.blocks)
    ensures vm.Ready() && Confined(old(vm.Now()), m, vm.Now(), m, Interval(First(s), End(s)))
    ensures Good(vm.Now(), m) && Settled(vm.Now(), m, First(s), End(s))
    ensures status == Done ==> InFile(file.content, s)
    ensures status == Done ==> Filled(old(vm.Now()), m, s.vaddr, FileBytes(file.content, s, s.filesz), vm.Now())
    ensures vm.Now().used == old(vm.Now()).used && vm.Now().frames == old(vm.Now()).frames
    ensures status == Refused && file.Buffered() ==> !InFile(file.content, s)
    ensures status == Faulted ==> !AllMapped(m, First(s), End(s))
  {
    hide File.Ready, File.Buffered, Good, Filled, Confined, Settled, FileBytes, AllMapped;
    ghost var v0 := vm.Now();
    ghost var touched := Interval(First(s), End(s));
    var buf := new Byte[CHUNK];
    var remaining: nat, readOff: nat := s.filesz, 0;
    FilledNone(v0, m, s.vaddr);
    FileBytesNone(file.content, s);
    ConfinedSelf(v0, m, touched);
    while remaining > 0
      invariant remaining + readOff == s.filesz
      invariant readOff > 0 ==> s.offset + readOff <= |file.content|
      invariant file.Ready() && file.heap.blocks == old(file.heap.blocks)
      invariant vm.Ready() && Confined(v0, m, vm.Now(), m, touched)
      invariant Good(vm.Now(), m) && Settled(vm.Now(), m, First(s), End(s))
      invariant Filled(v0, m, s.vaddr, FileBytes(file.content, s, readOff), vm.Now())
    {
      ghost var v := vm.Now();
      var got;
      status, got := CopyChunk(vm, file, s, readOff, remaining, buf, m);
      ConfinedTrans(v0, m, v, m, vm.Now(), m, touched);
      if status != Done { return; }
      ghost var chunk := file.content[s.offset + readOff..s.offset + readOff + got];
      FilledMore(v0, m, s.vaddr, FileBytes(file.content, s, readOff), v, chunk, vm.Now());
      FileBytesMore(file.content, s, readOff, chunk);
      readOff := readOff + got;
      remaining := remaining - got;
    }
    status := Done;
  }

  /** One turn of the copy loop. */
  method CopyChunk(vm: Vmm, file: File, s: Segment, readOff: nat, remaining: nat, buf: array<Byte>, ghost m: Mem)
    returns (status: Status, got: int)
    requires file.Ready()
    requires vm.Ready() && Good(vm.Now(), m) && Placeable(s) && Settled(vm.Now(), m, First(s), End(s))
    requires remaining > 0 && readOff + remaining == s.filesz && buf.Length == CHUNK
    requires (buf as object) != vm.pmm.bitmap && |file.content| < WORDS
    requires readOff > 0 ==> s.offset + readOff <= |file.content|
    modifies vm`ram, buf, file.heap
    ensures file.Ready() && file.heap.blocks == old(file.heap.blocks)
    ensures vm.Ready() && Confined(old(vm.Now()), m, vm.Now(), m, Interval(First(s), End(s)))
    ensures Good(vm.Now(), m) && Settled(vm.Now(), m, First(s), End(s))
    ensures vm.Now().used == old(vm.Now()).used && vm.Now().frames == old(vm.Now()).frames
    ensures status == Refused && file.Buffered() ==> !InFile(file.content, s)
    ensures status == Faulted ==> !AllMapped(m, First(s), End(s))
    ensures status == Done ==> 0 < got <= remaining && s.offset + readOff + got <= |file.content|
    ensures status == Done ==> Filled(old(vm.Now()), m, s.vaddr + readOff,
                                      file.content[s.offset + readOff..s.offset + readOff + got], vm.Now())
  {
    hide File.Ready, File.Buffered, Good, Filled, Confined, Settled, FileBytes, AllMapped;
    ConfinedSelf(vm.Now(), m, Interval(First(s), End(s)));
    var chunk := if remaining < CHUNK then remaining else CHUNK;
    got := file.Read((s.offset + readOff) % WORDS, chunk, buf);
    if got <= 0 { return Refused, got; }
    var ok := StoreBytes(vm, (s.vaddr + readOff) % WORDS, buf[..got], s, m);
    status := if ok then Done else Faulted;
  }

  /** A byte on a page of a segment: one of the file or a zero, or, outside the segment's own
      bytes, what the frame held in v0, when it was free. */
  ghost predicate ByteShown(v0: View, v: View, m: Mem, file: seq<Byte>, s: Segment, a: int)
    requires Good(v, m) && InFile(file, s)
  {
    0 <= a && Mapped(m, a) &&
    if s.vaddr <= a < s.vaddr + Extent(s) then Peek(v, m, a) == SegmentImage(file, s)[a - s.vaddr]
    else Stale(v0, v, m, a)
  }

  /** A segment is in memory. */
  ghost predicate SegmentLoaded(v0: View, v: View, m: Mem, file: seq<Byte>, s: Segment) {
    && Good(v, m) && InFile(file, s)
    && forall a :: First(s) <= a / PAGE_SIZE < End(s) ==> ByteShown(v0, v, m, file, s, a)
  }

  lemma FilledLoaded(v0: View, v: View, m: Mem, file: seq<Byte>, s: Segment, v': View)
    requires Placeable(s) && s.memsz > 0 && InFile(file, s) && Filled(v, m, s.vaddr, SegmentImage(file, s), v')
    requires StaleRange(v0, v, m, First(s), End(s))
    ensures Good(v', m) && SegmentLoaded(v0, v', m, file, s) && AllMapped(m, First(s), End(s))
  {
    hide Good, SegmentImage, Idle;
    FilledMapped(v, m, file, s, v');
    forall a | First(s) <= a / PAGE_SIZE < End(s) ensures ByteShown(v0, v', m, file, s, a) {
      assert StalePage(v0, v, m, a / PAGE_SIZE);
      if !(s.vaddr <= a < s.vaddr + Extent(s)) { assert Stale(v0, v, m, a); }
    }
  }

  /** Every page of a segment holds at least one of its bytes. */
  lemma FilledMapped(v: View, m: Mem, file: seq<Byte>, s: Segment, v': View)
    requires s.memsz > 0 && InFile(file, s) && Filled(v, m, s.vaddr, SegmentImage(file, s), v')
    ensures AllMapped(m, First(s), End(s))
  {
    hide Good, SegmentImage, Idle;
    forall p | First(s) <= p < End(s) ensures p in m.pages {
      var a := if p == First(s) then s.vaddr else p * PAGE_SIZE;
      assert a / PAGE_SIZE == p && s.vaddr <= a < s.vaddr + Extent(s);
      assert Mapped(m, a);
    }
  }

  /** One PT_LOAD segment: its pages, its file bytes, and zeros behind them. */
  method LoadSegment(vm: Vmm, file: File, s: Segment, pages: array<Word>, count: nat, ghost m: Mem)
    returns (status: Status, n: nat, ghost m': Mem)
    requires file.Ready()
    requires vm.Ready() && Good(vm.Now(), m) && Placeable(s) && s.memsz > 0 && Settled(vm.Now(), m, First(s), End(s))
    requires count <= pages.Length && pages != vm.pmm.bitmap && |file.content| < WORDS
    modifies vm`ram, vm.pmm`usedBlocks, vm.pmm.bitmap, pages, file.heap
    ensures file.Ready() && file.heap.blocks == old(file.heap.blocks)
    ensures vm.Ready() && Good(vm.Now(), m') && n <= pages.Length
    ensures Confined(old(vm.Now()), m, vm.Now(), m', Interval(First(s), End(s))) && Kept(m, m')
    ensures status == Done ==> Idle(old(vm.Now()), vm.Now())
    ensures status == Done ==> SegmentLoaded(old(vm.Now()), vm.Now(), m', file.content, s)
    ensures status == Done ==> AllMapped(m', First(s), End(s))
    ensures status == Done ==> 0 < First(s) <= End(s) && Weight(m') == Weight(m) + (End(s) - First(s))
    ensures status == Done ==> Recorded(old(pages[..]), count, pages[..], n, Range(First(s), End(s)))
    ensures status != Done && file.Buffered() ==> !InFile(file.content, s) || First(s) == 0 || NoFrame(vm.Now())
  {
    hide File.Ready, File.Buffered, StaleRange, Idle, Good, Filled, Confined, Settled, Recorded, SegmentLoaded;
    hide AllMapped, SegmentImage, FileBytes, Kept, Weight;
    ghost var v0 := vm.Now();
    ghost var touched := Interval(First(s), End(s));
    var ok;
    ok, n, m' := MapSegment(vm, s, pages, count, m);
    ConfinedGood(v0, m, vm.Now(), m', touched);
    if !ok { return Refused, n, m'; }
    ghost var v1 := vm.Now();
    status := CopySegment(vm, file, s, m');
    ConfinedTrans(v0, m, v1, m', vm.Now(), m', touched);
    if status != Done { return; }
    ghost var v2 := vm.Now();
    ok := StoreBytes(vm, (s.vaddr + s.filesz) % WORDS, Zeros(Extent(s) - s.filesz), s, m');
    ConfinedTrans(v0, m, v2, m', vm.Now(), m', touched);
    if !ok { return Faulted, n, m'; }
    FilledMore(v1, m', s.vaddr, FileBytes(file.content, s, s.filesz), v2, Zeros(Extent(s) - s.filesz), vm.Now());
    ImageIs(file.content, s);
    FilledIdle(v0, v1, m', s.vaddr, SegmentImage(file.content, s), vm.Now());
    FilledLoaded(v0, v1, m', file.content, s, vm.Now());
  }

  lemma FilledIdle(v0: View, v: View, m: Mem, dst: nat, bs: seq<Byte>, v': View)
    requires Idle(v0, v) && Filled(v, m, dst, bs, v')
    ensures Idle(v0, v')
  {
    hide Good;
    IdleTrans(v0, v, v');
  }

  lemma ImageIs(file: seq<Byte>, s: Segment)
    requires InFile(file, s)
    ensures SegmentImage(file, s) == FileBytes(file, s, s.filesz) + Zeros(Extent(s) - s.filesz)
  {
  }

  // ---- The whole image ----

  /** Page p is one of `over`, or one that a segment behind the i-th, up to the n-th, maps anew. */
  ghost predicate Covered(file: seq<Byte>, i: nat, n: nat, over: set<int>, p: int) {
    p in over || exists j: nat :: i < j < n && InSegment(file, j, p)
  }

  /** Segment i of the first n is in memory, but for the pages that have been covered since. */
  ghost predicate SegmentShown(v0: View, v: View, m: Mem, file: seq<Byte>, i: nat, n: nat, over: set<int>)
    requires HasSegment(file, i)
  {
    var s := SegmentOf(file, i);
    && Good(v, m) && InFile(file, s)
    && forall a :: First(s) <= a / PAGE_SIZE < End(s) && !Covered(file, i, n, over, a / PAGE_SIZE) ==>
         ByteShown(v0, v, m, file, s, a)
  }

  /** The first n segments are in memory, each as far as no later one has taken its pages. */
  ghost predicate ImageLoaded(v0: View, v: View, m: Mem, file: seq<Byte>, n: nat, over: set<int>) {
    forall i: nat :: i < n && HasSegment(file, i) ==> SegmentShown(v0, v, m, file, i, n, over)
  }

  /** The pages of all segments are the process's own, or have no frame. */
  ghost predicate SettledAll(v: View, m: Mem, file: seq<Byte>) {
    forall i: nat :: HasSegment(file, i) ==> Settled(v, m, First(SegmentOf(file, i)), End(SegmentOf(file, i)))
  }

  /** The pages that loading the first n segments takes, in order and with repetition. */
  function PagesTaken(file: seq<Byte>, n: nat): seq<int> {
    if n == 0 then [] else PagesTaken(file, n - 1) + SegmentPages(file, n - 1)
  }

  function SegmentPages(file: seq<Byte>, i: nat): seq<int> {
    if HasSegment(file, i) then
      var s := SegmentOf(file, i);
      FirstBeforeEnd(s);
      Range(First(s), End(s))
    else []
  }

  lemma FirstBeforeEnd(s: Segment)
    ensures First(s) <= End(s)
  {
  }

  /** Page 0 is never among them: its address cannot be told from the allocator's failure. */
  ghost predicate Made(file: seq<Byte>, n: nat, made: seq<int>) { made == PagesTaken(file, n) && 0 !in made }

  lemma InSegmentPages(file: seq<Byte>, i: nat, p: int)
    ensures p in SegmentPages(file, i) <==> InSegment(file, i, p)
  {
    if InSegment(file, i, p) { assert SegmentPages(file, i)[p - First(SegmentOf(file, i))] == p; }
  }

  /** They are the pages of the image. */
  lemma {:induction false} TakenInImage(file: seq<Byte>, n: nat, p: int)
    ensures p in PagesTaken(file, n) <==> InImage(file, n, p)
  {
    hide HasSegment, SegmentPages, InSegment;
    if n > 0 {
      TakenInImage(file, n - 1, p);
      InSegmentPages(file, n - 1, p);
      ImageNext(file, n - 1, p);
    }
  }

  /** No page is taken twice exactly when no segment has a page of an earlier one. */
  lemma {:induction false} TakenOnce(file: seq<Byte>, n: nat)
    ensures Distinct(PagesTaken(file, n)) <==>
      forall j: nat, p :: j < n && InImage(file, j, p) ==> !InSegment(file, j, p)
  {
    hide PagesTaken, InSegment, Distinct, InImage;
    if n == 0 {
      NothingDistinct(file);
    } else {
      TakenOnce(file, n - 1);
      TakenNext(file, n - 1);
    }
  }

  lemma TakenNext(file: seq<Byte>, k: nat)
    ensures Distinct(PagesTaken(file, k + 1)) <==>
      Distinct(PagesTaken(file, k)) && forall p :: InImage(file, k, p) ==> !InSegment(file, k, p)
  {
    hide HasSegment, SegmentPages, InSegment, Distinct, InImage;
    var made, more := PagesTaken(file, k), SegmentPages(file, k);
    assert PagesTaken(file, k + 1) == made + more;
    SegmentPagesOnce(file, k);
    DistinctAppend(made, more);
    forall p ensures (p in made <==> InImage(file, k, p)) && (p in more <==> InSegment(file, k, p)) {
      TakenInImage(file, k, p);
      InSegmentPages(file, k, p);
    }
    if forall p :: InImage(file, k, p) ==> !InSegment(file, k, p) {
      forall p | p in made ensures p !in more { assert InImage(file, k, p); }
    } else {
      var p :| InImage(file, k, p) && InSegment(file, k, p);
      assert p in made && p in more;
    }
  }

  /** That is, when no two segments share a page. */
  lemma ApartTakenOnce(file: seq<Byte>)
    requires |file| >= EHDR_SIZE
    ensures Distinct(PagesTaken(file, HeaderOf(file).phnum)) <==> PagesApart(file)
  {
    hide PagesTaken, Distinct;
    var n := HeaderOf(file).phnum;
    TakenOnce(file, n);
    if PagesApart(file) {
      forall j: nat, p | j < n && InImage(file, j, p) ensures !InSegment(file, j, p) {
        var i: nat :| i < j && InSegment(file, i, p);
        ApartUncovered(file, i, n, {}, p);
        UncoveredBehind(file, i, j, n, p);
      }
    } else {
      SharedPage(file);
    }
  }

  lemma UncoveredBehind(file: seq<Byte>, i: nat, j: nat, n: nat, p: int)
    requires i < j < n && !Covered(file, i, n, {}, p)
    ensures !InSegment(file, j, p)
  {
  }

  /** Of two segments that are not apart the later one has a page of the earlier one. */
  lemma SharedPage(file: seq<Byte>)
    requires |file| >= EHDR_SIZE && !PagesApart(file)
    ensures exists j: nat, p :: j < HeaderOf(file).phnum && InImage(file, j, p) && InSegment(file, j, p)
  {
    hide GetU16, GetU32;
    var i, j :| HasSegment(file, i) && HasSegment(file, j) && i != j && !Apart(SegmentOf(file, i), SegmentOf(file, j));
    var s, t := SegmentOf(file, i), SegmentOf(file, j);
    NotEmpty(s);
    NotEmpty(t);
    var p := if First(s) < First(t) then First(t) else First(s);
    assert InSegment(file, i, p) && InSegment(file, j, p);
    assert if i < j then InImage(file, j, p) else InImage(file, i, p);
  }

  lemma NotEmpty(s: Segment)
    requires s.memsz > 0
    ensures First(s) < End(s)
  {
  }

  lemma NothingDistinct(file: seq<Byte>)
    ensures Distinct(PagesTaken(file, 0))
  {
  }

  lemma SegmentPagesOnce(file: seq<Byte>, i: nat)
    ensures Distinct(SegmentPages(file, i))
  {
    hide HasSegment;
  }

  lemma SegmentInImage(file: seq<Byte>, i: nat)
    requires Loadable(file) && HasSegment(file, i)
    ensures Interval(First(SegmentOf(file, i)), End(SegmentOf(file, i))) <= ImagePages(file)
  {
    forall p | p in Interval(First(SegmentOf(file, i)), End(SegmentOf(file, i))) ensures p in ImagePages(file) {
      assert Within(First(SegmentOf(file, i)), p, End(SegmentOf(file, i)));
      assert Placeable(SegmentOf(file, i)) && InSegment(file, i, p);
    }
  }

  /** What was shown stays shown where nothing was touched. */
  lemma ShownKept(v0: View, v: View, m: Mem, v': View, m': Mem, file: seq<Byte>, k: nat, n: nat, n': nat,
                  over: set<int>, over': set<int>, touched: set<int>)
    requires HasSegment(file, k) && SegmentShown(v0, v, m, file, k, n, over) && Confined(v, m, v', m', touched)
    requires forall p :: Covered(file, k, n, over, p) || p in touched ==> Covered(file, k, n', over', p)
    ensures SegmentShown(v0, v', m', file, k, n', over')
  {
    hide Good, SegmentImage, Covered, HasSegment, SegmentOf, First, End;
    var s := SegmentOf(file, k);
    forall a | First(s) <= a / PAGE_SIZE < End(s) && !Covered(file, k, n', over', a / PAGE_SIZE)
      ensures ByteShown(v0, v', m', file, s, a)
    {
      assert ByteShown(v0, v, m, file, s, a);
      ByteKept(v0, v, m, v', m', file, s, touched, a);
    }
  }

  lemma ByteKept(v0: View, v: View, m: Mem, v': View, m': Mem, file: seq<Byte>, s: Segment, touched: set<int>, a: int)
    requires Confined(v, m, v', m', touched) && InFile(file, s) && ByteShown(v0, v, m, file, s, a)
    requires a / PAGE_SIZE !in touched
    ensures ByteShown(v0, v', m', file, s, a)
  {
    hide Good, SegmentImage, Stale;
    if !(s.vaddr <= a < s.vaddr + Extent(s)) { StaleKept(v0, v, m, v', m', touched, a); }
  }

  lemma CoveredMore(file: seq<Byte>, k: nat, i: nat, over: set<int>, p: int)
    requires Covered(file, k, i, over, p) || (k < i && InSegment(file, i, p))
    ensures Covered(file, k, i + 1, over, p)
  {
  }

  /** A segment that has just been loaded shows everywhere. */
  lemma LoadedShown(v0: View, v: View, v': View, m': Mem, file: seq<Byte>, i: nat)
    requires HasSegment(file, i) && SegmentLoaded(v, v', m', file, SegmentOf(file, i)) && Idle(v0, v)
    ensures SegmentShown(v0, v', m', file, i, i + 1, {})
  {
    hide Good, SegmentImage, HasSegment, SegmentOf, First, End, Idle, Stale, Covered;
    var s := SegmentOf(file, i);
    forall a | First(s) <= a / PAGE_SIZE < End(s) ensures ByteShown(v0, v', m', file, s, a) {
      assert ByteShown(v, v', m', file, s, a);
      if !(s.vaddr <= a < s.vaddr + Extent(s)) { StaleSince(v0, v, v', m', a); }
    }
  }

  /** Loading one more segment covers those before it on the pages they share, and disturbs
      them nowhere else. */
  lemma NextLoaded(v0: View, v: View, m: Mem, v': View, m': Mem, file: seq<Byte>, i: nat)
    requires HasSegment(file, i) && ImageLoaded(v0, v, m, file, i, {})
    requires Confined(v, m, v', m', Interval(First(SegmentOf(file, i)), End(SegmentOf(file, i))))
    requires SegmentLoaded(v, v', m', file, SegmentOf(file, i)) && Idle(v0, v)
    ensures ImageLoaded(v0, v', m', file, i + 1, {})
  {
    hide Good, SegmentLoaded, SegmentShown, Confined, SegmentOf, HasSegment, First, End, Covered, Idle;
    var s := SegmentOf(file, i);
    LoadedShown(v0, v, v', m', file, i);
    forall k: nat | k < i && HasSegment(file, k) ensures SegmentShown(v0, v', m', file, k, i + 1, {}) {
      forall p | Covered(file, k, i, {}, p) || p in Interval(First(s), End(s)) ensures Covered(file, k, i + 1, {}, p) {
        if p in Interval(First(s), End(s)) { assert Within(First(s), p, End(s)) && InSegment(file, i, p); }
        CoveredMore(file, k, i, {}, p);
      }
      ShownKept(v0, v, m, v', m', file, k, i, i + 1, {}, {}, Interval(First(s), End(s)));
    }
  }

  lemma NextSettled(v: View, m: Mem, v': View, m': Mem, file: seq<Byte>, lo: nat, hi: nat)
    requires Loadable(file) && SettledAll(v, m, file) && Confined(v, m, v', m', Interval(lo, hi))
    requires AllMapped(m', lo, hi)
    ensures SettledAll(v', m', file)
  {
    hide Good, Settled, Confined, HasSegment, SegmentOf, First, End;
    forall i: nat | HasSegment(file, i) ensures Settled(v', m', First(SegmentOf(file, i)), End(SegmentOf(file, i))) {
      var t := SegmentOf(file, i);
      assert Placeable(t);
      forall p: nat | p in Interval(lo, hi) && First(t) <= p < End(t) ensures SettledPage(v', m', p) {
        assert Within(lo, p, hi);
      }
      StillSettled(v, m, v', m', Interval(lo, hi), First(t), End(t));
    }
  }

  lemma ImageNext(file: seq<Byte>, i: nat, p: int)
    ensures InImage(file, i + 1, p) <==> InImage(file, i, p) || InSegment(file, i, p)
  {
    hide InSegment;
    if InImage(file, i + 1, p) {
      var k: nat :| k < i + 1 && InSegment(file, k, p);
      assert k < i || k == i;
    }
  }

  /** Every page in `made` has a frame. */
  ghost predicate HaveFrames(m: Mem, made: seq<int>) { forall p :: p in made ==> p in m.pages }

  /** What a successful load leaves behind. As many frames have been lost as pages were taken
      more than once: each page taken adds one to the frames reserved or in use for pages. */
  ghost predicate Loaded(v: View, m: Mem, v': View, m': Mem, file: seq<Byte>, entry: Word, made: seq<int>) {
    && |file| >= EHDR_SIZE && IsExecutable(file[..EHDR_SIZE]) && entry == HeaderOf(file).entry
    && ImageLoaded(v, v', m', file, HeaderOf(file).phnum, {}) && Idle(v, v')
    && Made(file, HeaderOf(file).phnum, made) && HaveFrames(m', made)
    && Kept(m, m') && Weight(m') == Weight(m) + |made|
  }

  /** When no two segments share a page, none covers another. */
  lemma ApartUncovered(file: seq<Byte>, i: nat, n: nat, over: set<int>, p: int)
    requires PagesApart(file) && InSegment(file, i, p) && p !in over
    ensures !Covered(file, i, n, over, p)
  {
    forall j: nat | i < j < n ensures !InSegment(file, j, p) {
      if HasSegment(file, j) { assert Apart(SegmentOf(file, i), SegmentOf(file, j)); }
    }
  }

  /** Byte by byte, on every page that nothing covers: the file's bytes at p_offset, then zeros
      up to p_memsz if that is larger. */
  lemma LoadedByte(v0: View, v: View, m: Mem, file: seq<Byte>, n: nat, i: nat, over: set<int>, k: nat)
    requires Good(v, m) && Loadable(file) && ImageLoaded(v0, v, m, file, n, over)
    requires i < n && HasSegment(file, i) && k < Extent(SegmentOf(file, i))
    requires var p := (SegmentOf(file, i).vaddr + k) / PAGE_SIZE;
      !Covered(file, i, n, over, p) || (PagesApart(file) && p !in over)
    ensures var s := SegmentOf(file, i);
      && InFile(file, s) && (s.vaddr + k) / PAGE_SIZE in m.pages
      && Peek(v, m, s.vaddr + k) == if k < s.filesz then file[s.offset + k] else 0
  {
    hide Good, IsLoad, ParseHeader, ParseSegment, Covered, PagesApart, HasSegment, SegmentOf;
    var s := SegmentOf(file, i);
    assert Placeable(s);
    PageOfByte(s.vaddr + k, First(s), End(s));
    var p := (s.vaddr + k) / PAGE_SIZE;
    if PagesApart(file) && p !in over { ApartUncovered(file, i, n, over, p); }
    ShownByte(v0, v, m, file, n, i, over, s.vaddr + k);
  }

  lemma ShownByte(v0: View, v: View, m: Mem, file: seq<Byte>, n: nat, i: nat, over: set<int>, a: int)
    requires Good(v, m) && ImageLoaded(v0, v, m, file, n, over) && i < n && InSegment(file, i, a / PAGE_SIZE)
    requires !Covered(file, i, n, over, a / PAGE_SIZE)
    ensures InFile(file, SegmentOf(file, i)) && ByteShown(v0, v, m, file, SegmentOf(file, i), a)
  {
    hide Good, HasSegment, SegmentOf, Covered, First, End, SegmentImage, Stale;
    assert SegmentShown(v0, v, m, file, i, n, over);
  }

  /** On the same pages every other byte, whatever an earlier segment had put there, is what the
      page's frame held when it was free: of what a covered page held nothing is left. */
  lemma CoveredByte(v0: View, v: View, m: Mem, file: seq<Byte>, n: nat, i: nat, over: set<int>, a: int)
    requires Good(v, m) && ImageLoaded(v0, v, m, file, n, over) && i < n && InSegment(file, i, a / PAGE_SIZE)
    requires !Covered(file, i, n, over, a / PAGE_SIZE)
    requires var s := SegmentOf(file, i); !(s.vaddr <= a < s.vaddr + Extent(s))
    ensures 0 <= a && a / PAGE_SIZE in m.pages
    ensures var f := m.pages[a / PAGE_SIZE];
      && 0 <= f && f !in v0.used && (f + 1) * ENTRIES <= |v0.ram|
      && Peek(v, m, a) == FrameByte(v0.ram, f, a % PAGE_SIZE)
  {
    hide Good, HasSegment, SegmentOf, Covered, First, End, SegmentImage, FrameByte;
    ShownByte(v0, v, m, file, n, i, over, a);
  }

  /** Every page of the image has a segment that took it last. */
  lemma {:induction false} LastToTake(file: seq<Byte>, n: nat, p: int)
    requires InImage(file, n, p)
    ensures exists i: nat :: i < n && InSegment(file, i, p) && !Covered(file, i, n, {}, p)
  {
    hide InSegment;
    var k := n - 1;
    if InSegment(file, k, p) {
      assert !Covered(file, k, n, {}, p);
    } else {
      ImageNext(file, k, p);
      LastToTake(file, k, p);
      var i: nat :| i < k && InSegment(file, i, p) && !Covered(file, i, k, {}, p);
      assert !Covered(file, i, n, {}, p);
    }
  }

  /** Before the first segment nothing is loaded and nothing has been taken. */
  lemma Untouched(v: View, m: Mem, file: seq<Byte>, list: seq<Word>, n: nat)
    requires n <= |list|
    ensures ImageLoaded(v, v, m, file, 0, {}) && Made(file, 0, []) && HaveFrames(m, [])
    ensures Recorded(list, n, list, n, [])
  {
  }

  /** One program header: skipped, or its segment loaded. */
  method LoadHeader(vm: Vmm, file: File, h: Header, i: nat, pages: array<Word>, count: nat, ghost m: Mem,
                    ghost made: seq<int>, ghost start: View)
    returns (status: Status, n: nat, ghost m': Mem, ghost more: seq<int>)
    requires file.Ready()
    requires vm.Ready() && Good(vm.Now(), m) && Loadable(file.content)
    requires |file.content| >= EHDR_SIZE && h == HeaderOf(file.content) && i < h.phnum
    requires count <= pages.Length && pages != vm.pmm.bitmap
    requires Idle(start, vm.Now()) && ImageLoaded(start, vm.Now(), m, file.content, i, {})
    requires SettledAll(vm.Now(), m, file.content)
    requires Made(file.content, i, made) && HaveFrames(m, made)
    modifies vm`ram, vm.pmm`usedBlocks, vm.pmm.bitmap, pages, file.heap
    ensures file.Ready() && file.heap.blocks == old(file.heap.blocks)
    ensures vm.Ready() && Good(vm.Now(), m') && n <= pages.Length && Kept(m, m')
    ensures Confined(old(vm.Now()), m, vm.Now(), m', ImagePages(file.content))
    ensures status == Done ==> Idle(start, vm.Now())
    ensures status == Done ==> ImageLoaded(start, vm.Now(), m', file.content, i + 1, {})
    ensures status == Done ==> SettledAll(vm.Now(), m', file.content)
    ensures status == Done ==> Made(file.content, i + 1, made + more) && HaveFrames(m', made + more)
    ensures status == Done ==> Weight(m') == Weight(m) + |more|
    ensures status == Done ==> Recorded(old(pages[..]), count, pages[..], n, more)
    ensures if status == Done then !BadHeader(file.content, i)
            else file.Buffered() ==> BadHeader(file.content, i) || NoFrame(vm.Now())
  {
    hide File.Ready, File.Buffered, Good, Confined, Settled, Recorded, SegmentLoaded, First, End, Loadable, Made;
    hide ImageLoaded, SettledAll;
    hide IsLoad, ParseSegment, BadHeader, InFile, Kept, Weight, HaveFrames, AllMapped, Idle;
    ghost var v0 := vm.Now();
    n, m', more := count, m, [];
    ConfinedSelf(v0, m, ImagePages(file.content));
    KeptSelf(m);
    var phdr := new Byte[PHDR_SIZE];
    var at := PhdrOffset(h, i);
    var got := file.Read(at, PHDR_SIZE, phdr);
    HeaderIs(file.content, i);
    if got != PHDR_SIZE { return Refused, n, m', more; }
    assert phdr[..] == file.content[at..at + PHDR_SIZE];
    if !IsLoad(phdr[..]) {
      Skipped(start, v0, m, file.content, i, made, pages[..], n);
      return Done, n, m', more;
    }
    var s := ParseSegment(phdr[..]);
    SegmentReady(v0, m, file.content, i);
    status, n, m' := LoadSegment(vm, file, s, pages, count, m);
    SegmentInImage(file.content, i);
    ConfinedMore(v0, m, vm.Now(), m', Interval(First(s), End(s)), ImagePages(file.content));
    if status == Done {
      IdleTrans(start, v0, vm.Now());
      LoadedInFile(v0, vm.Now(), m', file.content, s);
      NextLoaded(start, v0, m, vm.Now(), m', file.content, i);
      NextSettled(v0, m, vm.Now(), m', file.content, First(s), End(s));
      NextMade(m, m', file.content, i, made);
      more := Range(First(s), End(s));
    }
  }

  lemma NextMade(m: Mem, m': Mem, file: seq<Byte>, i: nat, made: seq<int>)
    requires HasSegment(file, i) && Made(file, i, made) && HaveFrames(m, made) && Kept(m, m')
    requires First(SegmentOf(file, i)) > 0 && AllMapped(m', First(SegmentOf(file, i)), End(SegmentOf(file, i)))
    ensures First(SegmentOf(file, i)) <= End(SegmentOf(file, i))
    ensures var more := made + Range(First(SegmentOf(file, i)), End(SegmentOf(file, i)));
      Made(file, i + 1, more) && HaveFrames(m', more)
  {
    FirstBeforeEnd(SegmentOf(file, i));
  }

  /** What is known about program header i once it has been read. */
  lemma HeaderIs(file: seq<Byte>, i: nat)
    requires |file| >= EHDR_SIZE
    ensures PhdrOffset(HeaderOf(file), i) + PHDR_SIZE > |file| ==> BadHeader(file, i)
    ensures PhdrOffset(HeaderOf(file), i) + PHDR_SIZE <= |file| ==>
      (BadHeader(file, i) <==>
         HasSegment(file, i) && (!InFile(file, SegmentOf(file, i)) || First(SegmentOf(file, i)) == 0))
  {
  }

  lemma LoadedInFile(v0: View, v: View, m: Mem, file: seq<Byte>, s: Segment)
    requires SegmentLoaded(v0, v, m, file, s)
    ensures InFile(file, s)
  {
  }

  lemma Skipped(v0: View, v: View, m: Mem, file: seq<Byte>, i: nat, made: seq<int>, list: seq<Word>, n: nat)
    requires !HasSegment(file, i) && Made(file, i, made) && HaveFrames(m, made) && n <= |list| && Good(v, m)
    requires ImageLoaded(v0, v, m, file, i, {})
    ensures ImageLoaded(v0, v, m, file, i + 1, {}) && Made(file, i + 1, made + []) && HaveFrames(m, made + [])
    ensures Recorded(list, n, list, n, [])
  {
    hide Good, SegmentShown, HasSegment, SegmentOf, Covered, Confined;
    assert made + [] == made;
    ConfinedSelf(v, m, {});
    forall k: nat | k < i && HasSegment(file, k) ensures SegmentShown(v0, v, m, file, k, i + 1, {}) {
      forall p | Covered(file, k, i, {}, p) || p in {} ensures Covered(file, k, i + 1, {}, p) {
        CoveredMore(file, k, i, {}, p);
      }
      ShownKept(v0, v, m, v, m, file, k, i, i + 1, {}, {}, {});
    }
  }

  lemma SegmentReady(v: View, m: Mem, file: seq<Byte>, i: nat)
    requires Loadable(file) && HasSegment(file, i) && SettledAll(v, m, file)
    ensures var s := SegmentOf(file, i);
      Placeable(s) && s.memsz > 0 && Settled(v, m, First(s), End(s)) && |file| < WORDS
  {
  }

  lemma NoBadHeader(file: seq<Byte>)
    requires |file| >= EHDR_SIZE
    ensures !AnyBadHeader(file, 0)
  {
  }

  lemma NextBad(file: seq<Byte>, i: nat, n: nat)
    requires |file| >= EHDR_SIZE && i < n
    ensures BadHeader(file, i) ==> AnyBadHeader(file, n)
    ensures !AnyBadHeader(file, i) && !BadHeader(file, i) ==> !AnyBadHeader(file, i + 1)
  {
    hide BadHeader;
    if AnyBadHeader(file, i + 1) {
      var k: nat :| k < i + 1 && BadHeader(file, k);
      assert k < i || k == i;
    }
  }

  /** elf_load: the entry address of the image now in memory, or 0. */
  method ElfLoad(vm: Vmm, file: File, pages: array<Word>, count: nat, ghost m: Mem)
    returns (r: Word, faulted: bool, n: nat, ghost m': Mem, ghost made: seq<int>)
    requires file.Ready()
    requires vm.Ready() && Good(vm.Now(), m) && Loadable(file.content) && SettledAll(vm.Now(), m, file.content)
    requires count <= pages.Length && pages != vm.pmm.bitmap
    modifies vm`ram, vm.pmm`usedBlocks, vm.pmm.bitmap, pages, file.heap
    ensures file.Ready() && file.heap.blocks == old(file.heap.blocks)
    ensures vm.Ready() && Good(vm.Now(), m') && n <= pages.Length && Kept(m, m')
    ensures Confined(old(vm.Now()), m, vm.Now(), m', ImagePages(file.content))
    ensures r != 0 ==> !faulted && Loaded(old(vm.Now()), m, vm.Now(), m', file.content, r, made)
    ensures r != 0 ==> Recorded(old(pages[..]), count, pages[..], n, made)
    ensures Unloadable(file.content) || !file.Buffered() ==> r == 0
    ensures r == 0 && file.Buffered() ==> Unloadable(file.content) || NoFrame(vm.Now())
  {
    hide File.Ready, AnyBadHeader, BadHeader, NoFrame;
    hide Good, Confined, Recorded, SegmentLoaded, HasSegment, SegmentOf, IsLoad, IsExecutable;
    hide ParseHeader, Made, First, End, SettledAll, ImageLoaded, Loadable, Kept, Weight, HaveFrames, Idle;
    r, faulted, n, m', made := 0, false, count, m, [];
    ghost var v0 := vm.Now();
    ghost var image := ImagePages(file.content);
    ConfinedSelf(v0, m, image);
    KeptSelf(m);
    IdleSelf(v0);
    var header := new Byte[EHDR_SIZE];
    var got := file.Read(0, EHDR_SIZE, header);
    if got != EHDR_SIZE { return; }
    assert header[..] == file.content[..EHDR_SIZE];
    if !IsExecutable(header[..]) { return; }
    var h := ParseHeader(header[..]);
    Untouched(v0, m, file.content, pages[..], count);
    NoBadHeader(file.content);
    for i := 0 to h.phnum
      invariant file.Ready() && file.heap.blocks == old(file.heap.blocks)
      invariant vm.Ready() && Good(vm.Now(), m') && n <= pages.Length && Kept(m, m')
      invariant Confined(v0, m, vm.Now(), m', image)
      invariant Idle(v0, vm.Now()) && ImageLoaded(v0, vm.Now(), m', file.content, i, {})
      invariant SettledAll(vm.Now(), m', file.content)
      invariant Made(file.content, i, made) && HaveFrames(m', made) && Weight(m') == Weight(m) + |made|
      invariant Recorded(old(pages[..]), count, pages[..], n, made)
      invariant !AnyBadHeader(file.content, i)
    {
      var status;
      ghost var more;
      ghost var v1, m1, list, k := vm.Now(), m', pages[..], n;
      status, n, m', more := LoadHeader(vm, file, h, i, pages, n, m', made, v0);
      ConfinedTrans(v0, m, v1, m1, vm.Now(), m', image);
      KeptTrans(m, m1, m');
      NextBad(file.content, i, h.phnum);
      if status != Done {
        faulted := status == Faulted;
        return;
      }
      RecordedMore(old(pages[..]), count, list, k, pages[..], n, made, more);
      made := made + more;
    }
    r := h.entry;
  }
}
