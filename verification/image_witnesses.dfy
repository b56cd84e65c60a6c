/** Program files: one whose segments share a page, one too long for a page list, one at page 0. */
module ImageWitnesses {
  import opened Collections
  import opened Bytes
  import opened Elf
  import opened Bits
  import opened Paging
  import opened Process
  import opened UserMemory
  import opened Vmm

  const BASE := 0x40_0000

  /** The header of an x86 executable, with n program headers behind it. */
  function ProgramHeader(n: Byte): (bs: seq<Byte>)
    ensures |bs| == EHDR_SIZE
  {
    [0x7F, 0x45, 0x4C, 0x46, 1, 1, 1, 0, 0, 0, 0, 0, 0, 0, 0, 0]
    + [2, 0, 3, 0, 1, 0, 0, 0, 0, 0, 0x40, 0, 52, 0, 0, 0, 0, 0, 0, 0]
    + [0, 0, 0, 0, 52, 0, 32, 0, n, 0, 0, 0, 0, 0, 0, 0]
  }

  /** One file byte, from offset 0; address and size in memory as little-endian words. */
  function SegmentHeader(addr: seq<Byte>, size: seq<Byte>): (bs: seq<Byte>)
    requires |addr| == 4 && |size| == 4
    ensures |bs| == PHDR_SIZE
  {
    [1, 0, 0, 0, 0, 0, 0, 0] + addr + [0, 0, 0, 0, 1, 0, 0, 0] + size + [7, 0, 0, 0, 0, 0x10, 0, 0]
  }

  const BASE_BYTES: seq<Byte> := [0, 0, 0x40, 0]
  const BEHIND_BYTES: seq<Byte> := [0, 8, 0x40, 0]
  const ZERO_BYTES: seq<Byte> := [0, 0, 0, 0]
  const ONE_BYTES: seq<Byte> := [1, 0, 0, 0]
  const LONG_BYTES: seq<Byte> := [1, 0xC0, 3, 0]

  lemma Words()
    ensures GetU32(BASE_BYTES, 0) == BASE && GetU32(BEHIND_BYTES, 0) == BASE + 0x800
    ensures GetU32(ZERO_BYTES, 0) == 0 && GetU32(ONE_BYTES, 0) == 1 && GetU32(LONG_BYTES, 0) == 60 * PAGE_SIZE + 1
  {
  }

  function Twice(): seq<Byte> {
    ProgramHeader(2) + SegmentHeader(BASE_BYTES, ONE_BYTES) + SegmentHeader(BEHIND_BYTES, ONE_BYTES)
  }

  function Long(): seq<Byte> { ProgramHeader(1) + SegmentHeader(BASE_BYTES, LONG_BYTES) }

  function AtZero(): seq<Byte> { ProgramHeader(1) + SegmentHeader(ZERO_BYTES, ONE_BYTES) }

  lemma ProgramHeaderReads(n: Byte)
    ensures IsExecutable(ProgramHeader(n)) && ParseHeader(ProgramHeader(n)) == Header(BASE, EHDR_SIZE, PHDR_SIZE, n)
  {
  }

  lemma SegmentHeaderReads(addr: seq<Byte>, size: seq<Byte>)
    requires |addr| == 4 && |size| == 4
    ensures ParseSegment(SegmentHeader(addr, size)) == Segment(0, GetU32(addr, 0), 1, GetU32(size, 0))
    ensures GetU32(size, 0) != 0 ==> IsLoad(SegmentHeader(addr, size))
  {
    var bs := SegmentHeader(addr, size);
    assert bs[8] == addr[0] && bs[9] == addr[1] && bs[10] == addr[2] && bs[11] == addr[3];
    assert bs[20] == size[0] && bs[21] == size[1] && bs[22] == size[2] && bs[23] == size[3];
  }

  /** Program header i of a file that begins with these headers. */
  lemma FileReads(file: seq<Byte>, n: Byte, i: nat, addr: seq<Byte>, size: seq<Byte>)
    requires |addr| == 4 && |size| == 4 && GetU32(size, 0) != 0 && i < n <= 2 && |file| == EHDR_SIZE + n * PHDR_SIZE
    requires file[..EHDR_SIZE] == ProgramHeader(n)
    requires file[EHDR_SIZE + i * PHDR_SIZE..EHDR_SIZE + i * PHDR_SIZE + PHDR_SIZE] == SegmentHeader(addr, size)
    ensures IsExecutable(file[..EHDR_SIZE]) && HeaderOf(file) == Header(BASE, EHDR_SIZE, PHDR_SIZE, n)
    ensures HasSegment(file, i) && SegmentOf(file, i) == Segment(0, GetU32(addr, 0), 1, GetU32(size, 0))
    ensures PhdrOffset(HeaderOf(file), i) + PHDR_SIZE <= |file|
    ensures forall k: nat :: HasSegment(file, k) ==> k < n
  {
    hide ProgramHeader, SegmentHeader, GetU32, IsLoad, ParseSegment, ParseHeader, IsExecutable;
    ProgramHeaderReads(n);
    SegmentHeaderReads(addr, size);
    TimesIs(i);
    assert PhdrOffset(HeaderOf(file), i) == EHDR_SIZE + i * PHDR_SIZE;
  }

  lemma TimesIs(i: nat)
    requires i < 2
    ensures Times(i, PHDR_SIZE) == i * PHDR_SIZE
  {
  }

  lemma TwiceParts()
    ensures var file := Twice();
      && |file| == EHDR_SIZE + 2 * PHDR_SIZE && file[..EHDR_SIZE] == ProgramHeader(2) && file[0] == 0x7F
      && file[EHDR_SIZE..EHDR_SIZE + PHDR_SIZE] == SegmentHeader(BASE_BYTES, ONE_BYTES)
      && file[EHDR_SIZE + PHDR_SIZE..EHDR_SIZE + 2 * PHDR_SIZE] == SegmentHeader(BEHIND_BYTES, ONE_BYTES)
  {
    hide SegmentHeader;
  }

  lemma TwiceSegments()
    ensures |Twice()| == EHDR_SIZE + 2 * PHDR_SIZE && Twice()[0] == 0x7F
    ensures IsExecutable(Twice()[..EHDR_SIZE]) && HeaderOf(Twice()) == Header(BASE, EHDR_SIZE, PHDR_SIZE, 2)
    ensures HasSegment(Twice(), 0) && SegmentOf(Twice(), 0) == Segment(0, BASE, 1, 1)
    ensures HasSegment(Twice(), 1) && SegmentOf(Twice(), 1) == Segment(0, BASE + 0x800, 1, 1)
    ensures PhdrOffset(HeaderOf(Twice()), 0) + PHDR_SIZE <= |Twice()|
    ensures PhdrOffset(HeaderOf(Twice()), 1) + PHDR_SIZE <= |Twice()|
    ensures forall k: nat :: HasSegment(Twice(), k) ==> k < 2
  {
    hide ProgramHeader, SegmentHeader, IsExecutable, HasSegment, SegmentOf, HeaderOf, Twice, GetU32, PhdrOffset;
    Words();
    TwiceParts();
    FileReads(Twice(), 2, 0, BASE_BYTES, ONE_BYTES);
    FileReads(Twice(), 2, 1, BEHIND_BYTES, ONE_BYTES);
  }

  /** The two segments of this file lie on one page, which is therefore taken twice. */
  lemma SharesItsPage()
    ensures Loadable(Twice()) && |Twice()| >= EHDR_SIZE && !Unloadable(Twice()) && !PagesApart(Twice())
    ensures PagesTaken(Twice(), 2) == [BASE / PAGE_SIZE, BASE / PAGE_SIZE]
  {
    hide IsExecutable, HasSegment, SegmentOf, HeaderOf, Twice, PhdrOffset;
    TwiceSegments();
    assert !Apart(SegmentOf(Twice(), 0), SegmentOf(Twice(), 1));
  }

  /** Whoever runs it loses one frame for good. */
  lemma SharingLeaks()
    ensures Leaked(Twice()) == 1
  {
    hide HeaderOf, Twice, PagesTaken, Loadable, Unloadable, PagesApart, IsExecutable, HasSegment, SegmentOf;
    hide StackList, Distinct;
    TwiceSegments();
    SharesItsPage();
    PageAgain(BASE / PAGE_SIZE);
  }

  lemma PageAgain(page: int)
    requires page < STACK_END - USER_STACK_PAGES
    ensures var made := [page, page] + StackList(USER_STACK_PAGES); |made| == 6 && |Elements(made)| == 5
  {
    var stack := StackList(USER_STACK_PAGES);
    DistinctCount([page] + stack);
    assert Distinct([page] + stack);
    forall q ensures q in [page, page] + stack <==> q in [page] + stack {}
    assert Elements([page, page] + stack) == Elements([page] + stack);
  }

  /** At address a the process reads what the page's frame held in v0, when it was free. */
  ghost predicate ReadsStale(v0: View, v: View, m: Mem, a: int) {
    Good(v, m) && 0 <= a && a / PAGE_SIZE in m.pages && Stale(v0, v, m, a)
  }

  /** Its first segment asks for byte 0 of the file, 0x7F, at BASE. Once it is loaded there is at
      BASE what the page's frame held while it was free; the second segment has its byte. */
  lemma LosesItsByte(v: View, m: Mem, v': View, m': Mem, entry: Word, made: seq<int>)
    requires Good(v', m') && Loaded(v, m, v', m', Twice(), entry, made)
    ensures Reads(v', m', BASE + 0x800, 0x7F) && ReadsStale(v, v', m', BASE)
  {
    hide Good, IsExecutable, HasSegment, SegmentOf, HeaderOf, Twice, PhdrOffset, FrameByte, Stale, ImageLoaded;
    hide Loadable;
    hide PagesApart, Unloadable, PagesTaken;
    TwiceSegments();
    SharesItsPage();
    ShownByte(v, v', m', Twice(), 2, 1, {}, BASE);
    LoadedByte(v, v', m', Twice(), 2, 1, {}, 0);
  }

  /** This file asks for 61 pages: the process made of it leaves pages mapped. */
  lemma TakesTooMany()
    ensures Loadable(Long()) && |Long()| >= EHDR_SIZE && !Unloadable(Long())
    ensures |PagesTaken(Long(), 1)| + USER_STACK_PAGES == PROCESS_MAX_PAGES + 1
    ensures !AllListed(Long())
  {
    hide ProgramHeader, SegmentHeader, IsExecutable, HasSegment, SegmentOf, HeaderOf, AllListed, GetU32;
    var file := Long();
    Words();
    FileReads(file, 1, 0, BASE_BYTES, LONG_BYTES);
    ListedExactly(file);
    forall p | p in ImagePages(file) ensures p !in StackPages() { OnlySegment(file, p); }
  }

  lemma OnlySegment(file: seq<Byte>, p: int)
    requires p in ImagePages(file) && forall k: nat :: HasSegment(file, k) ==> k < 1
    ensures InSegment(file, 0, p)
  {
    hide HasSegment, SegmentOf, HeaderOf;
  }

  lemma LeavesPages(p: Life)
    requires Lifetime(p) && p.file == Long()
    ensures p.m2.pages != p.m0.pages
  {
    hide Lifetime, Long, AllListed;
    TakesTooMany();
    Conservation(p);
  }

  /** This file is whole and in order but for its address, page 0: it is never loaded. */
  lemma ZeroPage()
    ensures Loadable(AtZero()) && |AtZero()| >= EHDR_SIZE && IsExecutable(AtZero()[..EHDR_SIZE])
    ensures HeaderOf(AtZero()).entry == BASE && HeaderOf(AtZero()).phnum == 1
    ensures HasSegment(AtZero(), 0) && SegmentOf(AtZero(), 0) == Segment(0, 0, 1, 1)
    ensures InFile(AtZero(), SegmentOf(AtZero(), 0))
    ensures Unloadable(AtZero())
  {
    hide ProgramHeader, SegmentHeader, IsExecutable, HasSegment, SegmentOf, HeaderOf, GetU32;
    var file := AtZero();
    Words();
    FileReads(file, 1, 0, ZERO_BYTES, ONE_BYTES);
    assert BadHeader(file, 0);
  }
}
