/** The headers of a program file, byte by byte (TIS ELF specification 1.2, book I, chapter 1
    "ELF Header" and chapter 2 "Program Header"), and what loading such a file means in their words. */
module ElfFormat {
  import opened Bits
  import opened Bytes
  import opened Elf
  import opened UserMemory
  import opened Vmm

  type Half = h: int | 0 <= h < 0x1_0000

  datatype ElfHeader = ElfHeader(
    ident: seq<Byte>, etype: Half, machine: Half, version: Word, entry: Word, phoff: Word, shoff: Word, flags: Word,
    ehsize: Half, phentsize: Half, phnum: Half, shentsize: Half, shnum: Half, shstrndx: Half)
  {
    /** e_ident and the fields behind it, in order. */
    function Bytes(): (bs: seq<Byte>)
      requires |ident| == 16
      ensures |bs| == 52
    {
      ident + Le16(etype) + Le16(machine) + Le32(version) + Le32(entry) + Le32(phoff) + Le32(shoff) + Le32(flags)
      + Le16(ehsize) + Le16(phentsize) + Le16(phnum) + Le16(shentsize) + Le16(shnum) + Le16(shstrndx)
    }
  }

  datatype ProgramHeader = ProgramHeader(
    ptype: Word, offset: Word, vaddr: Word, paddr: Word, filesz: Word, memsz: Word, flags: Word, align: Word)
  {
    function Bytes(): (bs: seq<Byte>)
      ensures |bs| == 32
    {
      Le32(ptype) + Le32(offset) + Le32(vaddr) + Le32(paddr) + Le32(filesz) + Le32(memsz) + Le32(flags) + Le32(align)
    }
  }

  /** What elf_load reads of an ELF header. */
  lemma HeaderReads(e: ElfHeader)
    requires |e.ident| == 16
    ensures IsExecutable(e.Bytes()) <==> e.ident[..4] == [0x7F, 0x45, 0x4C, 0x46] && e.etype == 2 && e.machine == 3
    ensures ParseHeader(e.Bytes()) == Header(e.entry, e.phoff, e.phentsize, e.phnum)
  {
    hide GetU16, GetU32, Le16, Le32;
    var bs := e.Bytes();
    assert bs[..4] == e.ident[..4] && bs[..4] == [bs[0], bs[1], bs[2], bs[3]];
    assert bs[16..18] == Le16(e.etype) && bs[18..20] == Le16(e.machine);
    assert bs[24..28] == Le32(e.entry) && bs[28..32] == Le32(e.phoff);
    assert bs[42..44] == Le16(e.phentsize) && bs[44..46] == Le16(e.phnum);
    GetIs16(bs, 16, e.etype);
    GetIs16(bs, 18, e.machine);
    GetIs32(bs, 24, e.entry);
    GetIs32(bs, 28, e.phoff);
    GetIs16(bs, 42, e.phentsize);
    GetIs16(bs, 44, e.phnum);
  }

  /** What it reads of a program header. */
  lemma SegmentReads(p: ProgramHeader)
    ensures IsLoad(p.Bytes()) <==> p.ptype == 1 && p.memsz != 0
    ensures ParseSegment(p.Bytes()) == Segment(p.offset, p.vaddr, p.filesz, p.memsz)
  {
    hide GetU32, Le32;
    var bs := p.Bytes();
    assert bs[0..4] == Le32(p.ptype) && bs[4..8] == Le32(p.offset) && bs[8..12] == Le32(p.vaddr);
    assert bs[16..20] == Le32(p.filesz) && bs[20..24] == Le32(p.memsz);
    GetIs32(bs, 0, p.ptype);
    GetIs32(bs, 4, p.offset);
    GetIs32(bs, 8, p.vaddr);
    GetIs32(bs, 16, p.filesz);
    GetIs32(bs, 20, p.memsz);
  }

  /** The file begins with ELF header e, and p is its program header number i. */
  ghost predicate Holds(file: seq<Byte>, e: ElfHeader, i: nat, p: ProgramHeader) {
    && |e.ident| == 16 && |file| >= 52 && file[..52] == e.Bytes() && i < e.phnum
    && var at := (e.phoff + i * e.phentsize) % 0x1_0000_0000;
    && at + 32 <= |file| && file[at..at + 32] == p.Bytes()
  }

  lemma HoldsSegment(file: seq<Byte>, e: ElfHeader, i: nat, p: ProgramHeader)
    requires Holds(file, e, i, p)
    ensures HeaderOf(file) == Header(e.entry, e.phoff, e.phentsize, e.phnum)
    ensures HasSegment(file, i) <==> p.ptype == 1 && p.memsz != 0
    ensures HasSegment(file, i) ==> SegmentOf(file, i) == Segment(p.offset, p.vaddr, p.filesz, p.memsz)
    ensures PhdrOffset(HeaderOf(file), i) + PHDR_SIZE <= |file|
  {
    hide IsExecutable, ParseHeader, IsLoad, ParseSegment, GetU16, GetU32, ProgramHeader.Bytes, ElfHeader.Bytes;
    HeaderReads(e);
    SegmentReads(p);
  }

  /** Program header i keeps a file from ever being loaded exactly when it is a PT_LOAD header
      with bytes in memory whose file bytes end behind the file, or that begins on page 0. */
  lemma HoldsBad(file: seq<Byte>, e: ElfHeader, i: nat, p: ProgramHeader)
    requires Holds(file, e, i, p)
    ensures BadHeader(file, i) <==>
      p.ptype == 1 && p.memsz != 0 && ((p.filesz > 0 && p.offset + p.filesz > |file|) || p.vaddr < 0x1000)
  {
    hide HasSegment, HeaderOf, SegmentOf, ProgramHeader.Bytes, ElfHeader.Bytes;
    HoldsSegment(file, e, i, p);
  }

  /** A file whose program header i has these eight words, once loaded, has its file bytes from
      `offset` on in memory from `vaddr` on, `filesz` of them, and then zeros up to `memsz`;
      on every page that no later segment has taken. */
  lemma LoadedWords(v: View, m: Mem, v': View, m': Mem, file: seq<Byte>, entry: Word, made: seq<int>,
                    e: ElfHeader, i: nat, p: ProgramHeader, k: nat)
    requires Good(v', m') && Loadable(file) && Loaded(v, m, v', m', file, entry, made) && Holds(file, e, i, p)
    requires p.ptype == 1 && p.memsz != 0 && (k < p.filesz || k < p.memsz)
    requires !Covered(file, i, e.phnum, {}, (p.vaddr + k) / 4096)
    ensures e.ident[..4] == [0x7F, 0x45, 0x4C, 0x46] && e.etype == 2 && e.machine == 3 && entry == e.entry
    ensures if k < p.filesz then p.offset + k < |file| && Reads(v', m', p.vaddr + k, file[p.offset + k])
            else Reads(v', m', p.vaddr + k, 0)
  {
    hide Good, HasSegment, HeaderOf, SegmentOf, Loadable, ImageLoaded, Covered, ProgramHeader.Bytes, ElfHeader.Bytes;
    hide IsExecutable, ParseHeader, Idle, Made, HaveFrames, Kept, Weight;
    HeaderReads(e);
    HoldsSegment(file, e, i, p);
    LoadedByte(v, v', m', file, e.phnum, i, {}, k);
  }
}
