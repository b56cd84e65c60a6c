/** User memory: the bytes behind the pages that a process has been given. */
module UserMemory {
  import opened Bits
  import opened Bytes
  import opened Collections
  import opened Paging
  import opened Pmm
  import opened Vmm
  import opened FrameOwnership

  // ---- Bytes of a word ----

  function ByteOf(w: Word, k: nat): Byte
    requires k < 4
  {
    if k == 0 then w % 0x100 else if k == 1 then w / 0x100 % 0x100
    else if k == 2 then w / 0x1_0000 % 0x100 else w / 0x100_0000
  }

  function Compose(b0: int, b1: int, b2: int, b3: int): (w: Word)
    requires 0 <= b0 < 0x100 && 0 <= b1 < 0x100 && 0 <= b2 < 0x100 && 0 <= b3 < 0x100
    ensures w % 0x100 == b0 && w / 0x100 % 0x100 == b1 && w / 0x1_0000 % 0x100 == b2 && w / 0x100_0000 == b3
  {
    var high := b2 + 0x100 * b3;
    var w := b0 + 0x100 * (b1 + 0x100 * high);
    LowByte(b0, b1 + 0x100 * high);
    LowByte(b1, high);
    LowByte(b2, b3);
    HighBytes(w);
    w
  }

  lemma LowByte(b: int, r: nat)
    requires 0 <= b < 0x100
    ensures (b + 0x100 * r) % 0x100 == b && (b + 0x100 * r) / 0x100 == r
  {
  }

  lemma HighBytes(w: nat)
    ensures w / 0x1_0000 == w / 0x100 / 0x100 && w / 0x100_0000 == w / 0x100 / 0x100 / 0x100
  {
  }

  /** The word with byte k replaced. */
  function PutByte(w: Word, k: nat, b: Byte): (v: Word)
    requires k < 4
    ensures ByteOf(v, k) == b
    ensures forall j :: 0 <= j < 4 && j != k ==> ByteOf(v, j) == ByteOf(w, j)
  {
    Compose(if k == 0 then b else ByteOf(w, 0), if k == 1 then b else ByteOf(w, 1),
            if k == 2 then b else ByteOf(w, 2), if k == 3 then b else ByteOf(w, 3))
  }

  /** Byte `off` of a frame. */
  function FrameByte(ram: Ram, frame: nat, off: nat): Byte
    requires off < PAGE_SIZE && (frame + 1) * ENTRIES <= |ram|
  {
    ByteOf(ram[frame * ENTRIES + off / 4], off % 4)
  }

  function PutFrameByte(ram: Ram, frame: nat, off: nat, b: Byte): Ram
    requires off < PAGE_SIZE && (frame + 1) * ENTRIES <= |ram|
  {
    ram[frame * ENTRIES + off / 4 := PutByte(ram[frame * ENTRIES + off / 4], off % 4, b)]
  }

  lemma PutFrameByteAt(ram: Ram, frame: nat, off: nat, b: Byte, frame': nat, off': nat)
    requires off < PAGE_SIZE && (frame + 1) * ENTRIES <= |ram|
    requires off' < PAGE_SIZE && (frame' + 1) * ENTRIES <= |ram|
    ensures FrameByte(PutFrameByte(ram, frame, off, b), frame', off') ==
      if frame' == frame && off' == off then b else FrameByte(ram, frame', off')
  {
    SameWord(frame, off, frame', off');
  }

  lemma ByteInWord(virt: nat)
    ensures virt % PAGE_SIZE % 4 == virt % 4
  {
  }

  lemma SameWord(frame: nat, off: nat, frame': nat, off': nat)
    requires off < PAGE_SIZE && off' < PAGE_SIZE
    ensures frame * ENTRIES + off / 4 == frame' * ENTRIES + off' / 4 <==> frame == frame' && off / 4 == off' / 4
    ensures off / 4 == off' / 4 && off % 4 == off' % 4 ==> off == off'
  {
  }

  // ---- What a process sees ----

  /** The ghost side of user memory: reserved frames and allocated pages. */
  datatype Mem = Mem(reserved: set<int>, pages: map<int, int>)

  /** Every frame has its owner, and user mode may use every allocated page. */
  ghost predicate Good(v: View, m: Mem) {
    Owns(v, m.reserved, m.pages) && Sized(v.ram, v.frames) && AllOpen(v, m.pages)
  }

  ghost predicate AllOpen(v: View, pages: map<int, int>) {
    forall p :: p in pages ==> 0 <= p && UserPage(v.ram, v.frames, v.dir, p)
  }

  /** All pages stay open while their mappings and the user bits stay. */
  lemma OpenKept(v: View, pages: map<int, int>, v': View, pages': map<int, int>)
    requires AllOpen(v, pages) && UserKept(v.ram, v'.ram, v.dir) && v'.dir == v.dir && v'.frames == v.frames
    requires Directory(v.ram, v.frames, v.dir) && Directory(v'.ram, v.frames, v.dir)
    requires forall p :: p in pages' ==> p in pages && 0 <= p < SELF * ENTRIES
    requires forall p :: p in pages' && 0 <= p < SELF * ENTRIES ==>
      Lookup(v'.ram, v.frames, v.dir, p) == Lookup(v.ram, v.frames, v.dir, p)
    ensures AllOpen(v', pages')
  {
    hide Directory, Lookup, UserPage;
    forall p | p in pages' ensures UserPage(v'.ram, v.frames, v.dir, p) {
      UserPageKept(v.ram, v'.ram, v.frames, v.dir, p);
    }
  }

  lemma GoodPage(v: View, m: Mem, p: int)
    requires Good(v, m) && p in m.pages
    ensures 0 <= p < SELF * ENTRIES && 0 <= m.pages[p] < v.frames && (m.pages[p] + 1) * ENTRIES <= |v.ram|
    ensures m.pages[p] in v.used && m.pages[p] != v.dir && m.pages[p] != 0 && m.pages[p] !in Tables(v.ram, v.dir)
    ensures Lookup(v.ram, v.frames, v.dir, p).Some? && Lookup(v.ram, v.frames, v.dir, p).value.frame == m.pages[p]
  {
    assert Backed(v, p, m.pages[p]);
    assert m.pages[p] in m.pages.Values;
  }

  /** The byte at a virtual address of an allocated page. */
  ghost function Peek(v: View, m: Mem, virt: int): Byte
    requires Good(v, m) && 0 <= virt && virt / PAGE_SIZE in m.pages
  {
    GoodPage(v, m, virt / PAGE_SIZE);
    FrameByte(v.ram, m.pages[virt / PAGE_SIZE], virt % PAGE_SIZE)
  }

  /** The process reads b at address a. */
  ghost predicate Reads(v: View, m: Mem, a: int, b: Byte) {
    Good(v, m) && 0 <= a && a / PAGE_SIZE in m.pages && Peek(v, m, a) == b
  }

  ghost predicate Unmapped(v: View, page: nat) {
    Directory(v.ram, v.frames, v.dir) && page < SELF * ENTRIES && Lookup(v.ram, v.frames, v.dir, page) == None
  }

  /** Every byte of the allocated pages outside `touched` is what it was. */
  ghost predicate SameBytes(v: View, m: Mem, v': View, m': Mem, touched: set<int>)
    requires Good(v, m) && Good(v', m')
  {
    forall a :: 0 <= a && a / PAGE_SIZE in m.pages && a / PAGE_SIZE !in touched ==>
      a / PAGE_SIZE in m'.pages && Peek(v', m', a) == Peek(v, m, a)
  }

  /** The page map outside `touched` is what it was. */
  ghost predicate SameMap(v: View, v': View, touched: set<int>)
    requires Directory(v.ram, v.frames, v.dir) && Directory(v'.ram, v'.frames, v'.dir)
  {
    forall q :: 0 <= q < SELF * ENTRIES && q !in touched ==>
      Lookup(v'.ram, v'.frames, v'.dir, q) == Lookup(v.ram, v.frames, v.dir, q)
  }

  ghost predicate SamePlaces(m: Mem, m': Mem, touched: set<int>) {
    && (forall p :: p in m.pages && p !in touched ==> p in m'.pages && m'.pages[p] == m.pages[p])
    && (forall p :: p in m'.pages && p !in touched ==> p in m.pages)
  }

  /** What happened to user memory is confined to the `touched` pages; tables only grow in number. */
  ghost predicate Confined(v: View, m: Mem, v': View, m': Mem, touched: set<int>) {
    && Good(v, m) && Good(v', m') && v'.frames == v.frames && v'.dir == v.dir
    && Directory(v.ram, v.frames, v.dir) && Directory(v'.ram, v'.frames, v'.dir)
    && SamePlaces(m, m', touched) && SameMap(v, v', touched) && SameBytes(v, m, v', m', touched)
    && Tables(v.ram, v.dir) <= Tables(v'.ram, v'.dir)
  }

  lemma ConfinedSelf(v: View, m: Mem, touched: set<int>)
    requires Good(v, m)
    ensures Confined(v, m, v, m, touched)
  {
  }

  lemma ConfinedGood(v: View, m: Mem, v': View, m': Mem, touched: set<int>)
    requires Confined(v, m, v', m', touched)
    ensures Good(v, m) && Good(v', m') && Directory(v'.ram, v'.frames, v'.dir)
  {
  }

  lemma ConfinedTrans(v: View, m: Mem, v': View, m': Mem, v'': View, m'': Mem, touched: set<int>)
    requires Confined(v, m, v', m', touched) && Confined(v', m', v'', m'', touched)
    ensures Confined(v, m, v'', m'', touched)
  {
    hide Good;
    forall a | 0 <= a && a / PAGE_SIZE in m.pages && a / PAGE_SIZE !in touched
      ensures a / PAGE_SIZE in m''.pages && Peek(v'', m'', a) == Peek(v, m, a)
    {
      assert Peek(v', m', a) == Peek(v, m, a);
    }
  }

  lemma ConfinedMore(v: View, m: Mem, v': View, m': Mem, touched: set<int>, more: set<int>)
    requires Confined(v, m, v', m', touched) && touched <= more
    ensures Confined(v, m, v', m', more)
  {
    hide Good;
  }

  // ---- Stores ----

  /** Storing a byte changes that byte and nothing else of the process, the page map or the tables. */
  lemma StoreKeeps(v: View, m: Mem, virt: int, b: Byte)
    requires Good(v, m) && 0 <= virt && virt / PAGE_SIZE in m.pages
    ensures 0 <= m.pages[virt / PAGE_SIZE] && (m.pages[virt / PAGE_SIZE] + 1) * ENTRIES <= |v.ram|
    ensures var v' := v.(ram := PutFrameByte(v.ram, m.pages[virt / PAGE_SIZE], virt % PAGE_SIZE, b));
      && Good(v', m) && Directory(v'.ram, v.frames, v.dir) && SamePages(v.ram, v'.ram, v.frames, v.dir)
      && Tables(v'.ram, v.dir) == Tables(v.ram, v.dir)
      && (forall a :: 0 <= a && a / PAGE_SIZE in m.pages ==> Peek(v', m, a) == if a == virt then b else Peek(v, m, a))
  {
    hide Owns, FrameByte, PutFrameByte;
    GoodPage(v, m, virt / PAGE_SIZE);
    var f, off := m.pages[virt / PAGE_SIZE], virt % PAGE_SIZE;
    var v' := v.(ram := PutFrameByte(v.ram, f, off, b));
    GoodDirectory(v, m);
    ByteKeepsPaging(v, m, f, off, b);
    forall a | 0 <= a && a / PAGE_SIZE in m.pages ensures Peek(v', m, a) == if a == virt then b else Peek(v, m, a) {
      GoodPage(v, m, a / PAGE_SIZE);
      PutFrameByteAt(v.ram, f, off, b, m.pages[a / PAGE_SIZE], a % PAGE_SIZE);
      OwnFrames(v, m, virt / PAGE_SIZE, a / PAGE_SIZE);
    }
  }

  lemma GoodDirectory(v: View, m: Mem)
    requires Good(v, m)
    ensures Directory(v.ram, v.frames, v.dir)
  {
  }

  /** Two pages of a process never share a frame. */
  lemma OwnFrames(v: View, m: Mem, p: int, q: int)
    requires Good(v, m) && p in m.pages && q in m.pages
    ensures m.pages[p] == m.pages[q] ==> p == q
  {
  }

  lemma ByteKeepsPaging(v: View, m: Mem, f: nat, off: nat, b: Byte)
    requires Good(v, m) && f < v.frames && f != v.dir && f !in Tables(v.ram, v.dir) && off < PAGE_SIZE
    requires (f + 1) * ENTRIES <= |v.ram| && Directory(v.ram, v.frames, v.dir)
    ensures var v' := v.(ram := PutFrameByte(v.ram, f, off, b));
      && Good(v', m) && Directory(v'.ram, v.frames, v.dir) && SamePages(v.ram, v'.ram, v.frames, v.dir)
      && Tables(v'.ram, v.dir) == Tables(v.ram, v.dir)
  {
    hide Owns, Directory, Tables, UserKept, AllOpen;
    var v' := v.(ram := PutFrameByte(v.ram, f, off, b));
    WordInFrame(f, off);
    DataStore(v.ram, v.frames, v.dir, f * ENTRIES + off / 4, v'.ram[f * ENTRIES + off / 4]);
    StoreOwns(v, m, v');
  }

  lemma WordInFrame(f: nat, off: nat)
    requires off < PAGE_SIZE
    ensures (f * ENTRIES + off / 4) / ENTRIES == f
  {
  }

  lemma StoreOwns(v: View, m: Mem, v': View)
    requires Good(v, m) && v' == v.(ram := v'.ram) && Sized(v'.ram, v.frames)
    requires Directory(v'.ram, v.frames, v.dir) && SamePages(v.ram, v'.ram, v.frames, v.dir)
    requires Tables(v'.ram, v.dir) == Tables(v.ram, v.dir) && UserKept(v.ram, v'.ram, v.dir)
    ensures Good(v', m)
  {
    hide UserPage, Lookup, Directory;
    forall p | p in m.pages ensures Backed(v', p, m.pages[p]) { assert Backed(v, p, m.pages[p]); }
    OpenKept(v, m.pages, v', m.pages);
  }

  /** A store into a frame that holds neither the directory nor a table leaves paging alone. */
  lemma DataStore(ram: Ram, frames: nat, dir: nat, k: nat, w: Word)
    requires Directory(ram, frames, dir) && k < |ram| && k / ENTRIES != dir && k / ENTRIES !in Tables(ram, dir)
    ensures var ram' := ram[k := w];
      Directory(ram', frames, dir) && SamePages(ram, ram', frames, dir) && Tables(ram', dir) == Tables(ram, dir)
      && UserKept(ram, ram', dir)
  {
    var ram' := ram[k := w];
    forall i | 0 <= i < ENTRIES ensures WordOf(ram', dir, i) == WordOf(ram, dir, i) {
      assert (dir * ENTRIES + i) / ENTRIES == dir;
    }
    SameDirectory(ram, ram', frames, dir);
    SameTables(ram, ram', dir);
    forall page | 0 <= page < SELF * ENTRIES
      ensures Lookup(ram', frames, dir, page) == Lookup(ram, frames, dir, page)
    {
      var i, j := page / ENTRIES, page % ENTRIES;
      assert TableOk(ram, frames, dir, i);
      if HasTable(ram, dir, i) {
        var t := TableFrame(ram, dir, i);
        assert t in Tables(ram, dir) && (t * ENTRIES + j) / ENTRIES == t;
      }
    }
  }

  /** The ghost side of giving a page another frame. */
  ghost function Remapped(m: Mem, page: int, f: int): Mem {
    Mem(m.reserved + Replaced(m.pages, page), m.pages[page := f])
  }

  /** Making room for a page moves no byte of the others. */
  lemma AddConfined(v: View, m: Mem, page: nat, f: int, flags: nat, v': View)
    requires Good(v, m) && PageAdded(v, page, f, flags, v') && page < SELF * ENTRIES
    requires UserPage(v'.ram, v'.frames, v'.dir, page)
    ensures Confined(v, m, v', Remapped(m, page, f), {page})
  {
    hide UserPage, Lookup, Directory, Backed, FrameByte;
    AddOpen(v, m, page, f, flags, v');
    AddOwns(v, page, f, flags, v', m.reserved, m.pages);
    var m' := Remapped(m, page, f);
    forall a | 0 <= a && a / PAGE_SIZE in m.pages && a / PAGE_SIZE !in {page} ensures Peek(v', m', a) == Peek(v, m, a) {
      GoodPage(v', m', a / PAGE_SIZE);
      SameFrameByte(v.ram, v'.ram, v.dir, m.pages[a / PAGE_SIZE], a % PAGE_SIZE);
    }
  }

  lemma AddOpen(v: View, m: Mem, page: nat, f: int, flags: nat, v': View)
    requires Good(v, m) && PageAdded(v, page, f, flags, v') && page < SELF * ENTRIES
    requires UserPage(v'.ram, v'.frames, v'.dir, page)
    ensures AllOpen(v', m.pages[page := f])
  {
    hide UserPage, Lookup, Directory;
    forall p | p in m.pages && p != page
      ensures 0 <= p < SELF * ENTRIES && UserPage(v'.ram, v'.frames, v'.dir, p)
    {
      GoodPage(v, m, p);
      UserPageKept(v.ram, v'.ram, v.frames, v.dir, p);
    }
  }

  /** How many frames are reserved or back a page. */
  ghost function Weight(m: Mem): nat { |m.reserved| + |m.pages| }

  /** A page that gets a frame, or a frame that is lost, adds one. */
  lemma RemappedWeight(v: View, m: Mem, page: int, f: int)
    requires Good(v, m)
    ensures Weight(Remapped(m, page, f)) == Weight(m) + 1
  {
    if page in m.pages {
      assert m.pages[page] in m.pages.Values;
      assert m.pages[page := f].Keys == m.pages.Keys;
    } else {
      assert m.pages[page := f].Keys == m.pages.Keys + {page};
    }
  }

  lemma LoseConfined(v: View, m: Mem, f: int, v': View)
    requires Good(v, m) && FrameLost(v, f, v')
    ensures Confined(v, m, v', m.(reserved := m.reserved + {f}), {})
  {
    LoseOwns(v, f, v', m.reserved, m.pages);
  }

  /** Taking a page away moves no byte of the others. */
  lemma DropConfined(v: View, m: Mem, page: nat, v': View)
    requires Good(v, m) && page in m.pages && PageRemoved(v, page, m.pages[page], v')
    ensures Confined(v, m, v', m.(pages := m.pages - {page}), {page})
  {
    DropOwns(v, page, m.pages[page], v', m.reserved, m.pages);
    var m' := m.(pages := m.pages - {page});
    forall p | p in m'.pages ensures 0 <= p < SELF * ENTRIES { GoodPage(v, m, p); }
    OpenKept(v, m.pages, v', m'.pages);
    forall a | 0 <= a && a / PAGE_SIZE in m.pages && a / PAGE_SIZE !in {page} ensures Peek(v', m', a) == Peek(v, m, a) {
      GoodPage(v', m', a / PAGE_SIZE);
      SameFrameByte(v.ram, v'.ram, v.dir, m.pages[a / PAGE_SIZE], a % PAGE_SIZE);
    }
  }

  lemma SameFrameByte(ram: Ram, ram': Ram, dir: nat, frame: nat, off: nat)
    requires OtherFramesSame(ram, ram', dir) && (frame + 1) * ENTRIES <= |ram| && off < PAGE_SIZE
    requires frame != dir && frame !in Tables(ram', dir)
    ensures FrameByte(ram', frame, off) == FrameByte(ram, frame, off)
  {
    assert (frame * ENTRIES + off / 4) / ENTRIES == frame;
  }

  // ---- What lies in the frames that are free ----

  /** Frames have only been taken, and those still free hold what they held. */
  ghost predicate Idle(v: View, v': View) {
    && |v'.ram| == |v.ram| && v'.frames == v.frames && v.used <= v'.used
    && forall f, off :: 0 <= f && (f + 1) * ENTRIES <= |v.ram| && f !in v'.used && 0 <= off < PAGE_SIZE ==>
         FrameByte(v'.ram, f, off) == FrameByte(v.ram, f, off)
  }

  lemma IdleSelf(v: View)
    ensures Idle(v, v)
  {
  }

  lemma IdleTrans(v: View, v': View, v'': View)
    requires Idle(v, v') && Idle(v', v'')
    ensures Idle(v, v'')
  {
    hide FrameByte;
  }

  /** The page has got a frame that was free in v0, and the byte is what the frame held then. */
  ghost predicate Stale(v0: View, v: View, m: Mem, a: int)
    requires Good(v, m) && 0 <= a && a / PAGE_SIZE in m.pages
  {
    var f := m.pages[a / PAGE_SIZE];
    && 0 <= f && f !in v0.used && (f + 1) * ENTRIES <= |v0.ram|
    && Peek(v, m, a) == FrameByte(v0.ram, f, a % PAGE_SIZE)
  }

  /** Every byte of the page is. */
  ghost predicate StalePage(v0: View, v: View, m: Mem, p: int)
    requires Good(v, m)
  {
    forall a :: 0 <= a && a / PAGE_SIZE == p && p in m.pages ==> Stale(v0, v, m, a)
  }

  /** A byte that has been stale since v' has been so since v. */
  lemma StaleSince(v: View, v': View, v'': View, m: Mem, a: int)
    requires Idle(v, v') && Good(v'', m) && 0 <= a && a / PAGE_SIZE in m.pages && Stale(v', v'', m, a)
    ensures Stale(v, v'', m, a)
  {
    hide FrameByte, Good;
  }

  /** A stale byte is so as long as its page is not touched. */
  lemma StaleKept(v0: View, v: View, m: Mem, v': View, m': Mem, touched: set<int>, a: int)
    requires Confined(v, m, v', m', touched) && 0 <= a && a / PAGE_SIZE in m.pages && a / PAGE_SIZE !in touched
    requires Stale(v0, v, m, a)
    ensures a / PAGE_SIZE in m'.pages && Stale(v0, v', m', a)
  {
    hide FrameByte, Good;
  }

  lemma AddIdle(v: View, page: nat, f: int, flags: nat, v': View, m: Mem)
    requires Good(v, m) && PageAdded(v, page, f, flags, v') && page < SELF * ENTRIES && Good(v', Remapped(m, page, f))
    ensures Idle(v, v') && StalePage(v, v', Remapped(m, page, f), page)
  {
    hide FrameByte;
    var m' := Remapped(m, page, f);
    forall g, off | 0 <= g && (g + 1) * ENTRIES <= |v.ram| && (g !in v'.used || g == f) && 0 <= off < PAGE_SIZE
      ensures FrameByte(v'.ram, g, off) == FrameByte(v.ram, g, off)
    {
      NotTable(v', m', page, g);
      SameFrameByte(v.ram, v'.ram, v.dir, g, off);
    }
    GoodPage(v', m', page);
  }

  /** A free frame, or that of a page, holds neither the directory nor a table. */
  lemma NotTable(v: View, m: Mem, page: int, g: int)
    requires Good(v, m) && page in m.pages && (g !in v.used || g == m.pages[page])
    ensures (v.dir + 1) * ENTRIES <= |v.ram| && g != v.dir && g !in Tables(v.ram, v.dir)
  {
    GoodDirectory(v, m);
    GoodPage(v, m, page);
    UsedFrames(v, m);
  }

  lemma UsedFrames(v: View, m: Mem)
    requires Good(v, m)
    ensures (v.dir + 1) * ENTRIES <= |v.ram| && v.dir in v.used && Tables(v.ram, v.dir) <= v.used
  {
  }

  lemma StoreIdle(v: View, f: nat, off: nat, b: Byte)
    requires f in v.used && off < PAGE_SIZE && (f + 1) * ENTRIES <= |v.ram|
    ensures Idle(v, v.(ram := PutFrameByte(v.ram, f, off, b)))
  {
    hide FrameByte, PutFrameByte;
    SameLength(v.ram, f, off, b);
    forall g, at | 0 <= g && (g + 1) * ENTRIES <= |v.ram| && g !in v.used && 0 <= at < PAGE_SIZE
      ensures FrameByte(PutFrameByte(v.ram, f, off, b), g, at) == FrameByte(v.ram, g, at)
    {
      PutFrameByteAt(v.ram, f, off, b, g, at);
    }
  }

  lemma SameLength(ram: Ram, f: nat, off: nat, b: Byte)
    requires off < PAGE_SIZE && (f + 1) * ENTRIES <= |ram|
    ensures |PutFrameByte(ram, f, off, b)| == |ram|
  {
  }

  // ---- The operations a loader uses ----

  /** No frame is left that an allocation could find. */
  ghost predicate NoFrame(v: View) { FreeOf(v.frames / 32 * 32, v.used) == {} }

  lemma LastFrame(v: View, f: int, v': View)
    requires FrameLost(v, f, v') && Except(FreeOf(v.frames / 32 * 32, v.used), f) == {}
    ensures NoFrame(v')
  {
    FreeTaken(v.frames / 32 * 32, v.used, f);
  }

  /** Present, writable, open to user mode, and nothing else. */
  predicate UserFlags(flags: nat) { flags == 7 }

  lemma UserFlagsOpen(flags: nat)
    requires UserFlags(flags)
    ensures IsUser(flags) && WithPresent(flags) == flags
  {
  }

  /** vmm_alloc_page for a process: no frame, a frame for the page, or a frame lost. A page
      that had a frame already loses that one. */
  method AllocUser(vm: Vmm, virt: Word, flags: nat, ghost m: Mem) returns (r: int, ghost m': Mem)
    requires vm.Ready() && Good(vm.Now(), m) && PdIndex(virt) < SELF && flags < PAGE_SIZE
    requires UserFlags(flags)
    requires PageOf(virt) in m.pages || Unmapped(vm.Now(), PageOf(virt))
    modifies vm`ram, vm.pmm`usedBlocks, vm.pmm.bitmap
    ensures vm.Ready() && Confined(old(vm.Now()), m, vm.Now(), m', {PageOf(virt)})
    ensures r == 0 || r == virt
    ensures PageOf(virt) in m'.pages || (m'.pages == m.pages && Unmapped(vm.Now(), PageOf(virt)) && NoFrame(vm.Now()))
    ensures r == 0 && virt != 0 ==> m' == m && vm.Now() == old(vm.Now())
    ensures NoFrame(old(vm.Now())) ==> r == 0 && NoFrame(vm.Now())
    ensures r == 0 ==> virt == 0 || NoFrame(vm.Now())
    ensures r != 0 && PageOf(virt) in m'.pages ==> m' == Remapped(m, PageOf(virt), m'.pages[PageOf(virt)])
    ensures Good(vm.Now(), m') && Idle(old(vm.Now()), vm.Now())
    ensures r != 0 ==> StalePage(old(vm.Now()), vm.Now(), m', PageOf(virt))
    ensures r != 0 && HasNeighbour(m, PageOf(virt)) ==> PageOf(virt) in m'.pages
    ensures r != 0 ==> Weight(m') == Weight(m) + 1
    ensures m.reserved <= m'.reserved
  {
    hide Owns, UserFlags;
    UserFlagsOpen(flags);
    ghost var v0 := vm.Now();
    ghost var f;
    PageIndices(virt);
    assert vm.pmm.Free() == {} <==> NoFrame(v0);
    if HasNeighbour(m, PageOf(virt)) { NeighbourHasTable(v0, m, virt); }
    r, f := vm.AllocPage(virt, flags);
    m' := m;
    ghost var v1 := vm.Now();
    if PageAdded(v0, PageOf(virt), f, WithPresent(flags), v1) {
      m' := Remapped(m, PageOf(virt), f);
      AddedOpen(v0, virt, f, flags, v1);
      AddConfined(v0, m, PageOf(virt), f, WithPresent(flags), v1);
      RemappedWeight(v0, m, PageOf(virt), f);
      AddIdle(v0, PageOf(virt), f, WithPresent(flags), v1, m);
    } else if FrameLost(v0, f, v1) {
      m' := m.(reserved := m.reserved + {f});
      LoseConfined(v0, m, f, v1);
      ConfinedMore(v0, m, v1, m', {}, {PageOf(virt)});
      LastFrame(v0, f, v1);
      LostWeight(v0, m, f);
    }
  }

  /** A page allocated with both flags is open to user mode. */
  lemma AddedOpen(v: View, virt: Word, f: int, flags: nat, v': View)
    requires PageAdded(v, PageOf(virt), f, WithPresent(flags), v') && PdIndex(virt) < SELF
    requires PageOf(virt) < SELF * ENTRIES && UserFlags(flags)
    requires FlagsStored(flags, Lookup(v'.ram, v'.frames, v'.dir, PageOf(virt)).value.flags)
    requires IsUser(WordOf(v'.ram, v'.dir, PdIndex(virt)))
    ensures UserPage(v'.ram, v'.frames, v'.dir, PageOf(virt))
  {
    hide Lookup, Directory, FlagsStored;
    PageIndices(virt);
    StoredOpen(flags, Lookup(v'.ram, v'.frames, v'.dir, PageOf(virt)).value.flags);
  }

  /** Byte k of a word is the k-th from its low end. */
  lemma ByteIs(w: Word, k: nat)
    requires k < 4
    ensures ByteOf(w, k) == Le32(w)[k]
  {
  }

  /** Some page under the same page table has a frame. */
  ghost predicate HasNeighbour(m: Mem, page: int) { exists q :: q in m.pages && q / ENTRIES == page / ENTRIES }

  /** Only a page without a page table can lose its frame. */
  lemma NeighbourHasTable(v: View, m: Mem, virt: Word)
    requires Good(v, m) && HasNeighbour(m, PageOf(virt)) && (v.dir + 1) * ENTRIES <= |v.ram| && PdIndex(virt) < SELF
    ensures HasTable(v.ram, v.dir, PdIndex(virt))
  {
    var q :| q in m.pages && q / ENTRIES == PageOf(virt) / ENTRIES;
    GoodPage(v, m, q);
    PageIndices(virt);
  }

  lemma LostWeight(v: View, m: Mem, f: int)
    requires Good(v, m) && f !in v.used
    ensures Weight(m.(reserved := m.reserved + {f})) == Weight(m) + 1
  {
  }

  /** vmm_unmap_page on a page of the process, or on one that has none. */
  method DropUser(vm: Vmm, virt: Word, ghost m: Mem) returns (ghost m': Mem)
    requires vm.Ready() && Good(vm.Now(), m) && PdIndex(virt) < SELF
    requires PageOf(virt) in m.pages || Unmapped(vm.Now(), PageOf(virt))
    modifies vm`ram, vm.pmm`usedBlocks, vm.pmm.bitmap
    ensures vm.Ready() && Confined(old(vm.Now()), m, vm.Now(), m', {PageOf(virt)})
    ensures m' == m.(pages := m.pages - {PageOf(virt)}) && Unmapped(vm.Now(), PageOf(virt))
    ensures |old(vm.ram)| == |vm.ram| && (vm.dir + 1) * ENTRIES <= |vm.ram|
    ensures Tables(vm.ram, vm.dir) == Tables(old(vm.ram), vm.dir)
  {
    hide Owns;
    ghost var v0 := vm.Now();
    PageIndices(virt);
    m' := m.(pages := m.pages - {PageOf(virt)});
    if PageOf(virt) in m.pages {
      GoodPage(v0, m, PageOf(virt));
    }
    vm.UnmapPage(virt);
    if PageOf(virt) in m.pages {
      DropConfined(v0, m, PageOf(virt), vm.Now());
    } else {
      assert m' == m;
      ConfinedSelf(v0, m, {PageOf(virt)});
    }
  }

  /** The processor's byte store; it faults exactly when the page is not mapped. */
  method StoreByte(vm: Vmm, virt: Word, b: Byte) returns (ok: bool)
    requires Directory(vm.ram, vm.pmm.maxBlocks, vm.dir) && PdIndex(virt) < SELF && PageOf(virt) < SELF * ENTRIES
    requires var t := Lookup(vm.ram, vm.pmm.maxBlocks, vm.dir, PageOf(virt));
      t.Some? ==> t.value.frame < vm.pmm.maxBlocks
    modifies vm`ram
    ensures var t := Lookup(old(vm.ram), vm.pmm.maxBlocks, vm.dir, PageOf(virt));
      ok == t.Some? && vm.ram ==
        if ok then PutFrameByte(old(vm.ram), t.value.frame, virt % PAGE_SIZE, b) else old(vm.ram)
  {
    WalkIsLookup(vm.ram, vm.pmm.maxBlocks, vm.dir, virt);
    if Walk(vm.ram, vm.dir, virt) == None {
      return false;
    }
    ByteInWord(virt);
    var w := vm.Load(virt);
    vm.Store(virt, PutByte(w, virt % 4, b));
    ok := true;
  }

  ghost predicate Stored(v: View, m: Mem, virt: int, b: Byte, v': View)
    requires Good(v, m) && Good(v', m)
  {
    && v'.frames == v.frames && v'.dir == v.dir && v'.used == v.used
    && Directory(v.ram, v.frames, v.dir) && Directory(v'.ram, v.frames, v.dir)
    && SamePages(v.ram, v'.ram, v.frames, v.dir)
    && Tables(v'.ram, v.dir) == Tables(v.ram, v.dir) && Idle(v, v')
    && forall a :: 0 <= a && a / PAGE_SIZE in m.pages ==> Peek(v', m, a) == if a == virt then b else Peek(v, m, a)
  }

  /** A store into a process's memory changes one byte of one page, or faults. */
  method StoreUser(vm: Vmm, virt: Word, b: Byte, ghost m: Mem) returns (ok: bool)
    requires vm.Ready() && Good(vm.Now(), m) && PdIndex(virt) < SELF
    requires PageOf(virt) in m.pages || Unmapped(vm.Now(), PageOf(virt))
    modifies vm`ram
    ensures vm.Ready() && Good(vm.Now(), m)
    ensures ok <==> PageOf(virt) in m.pages
    ensures if ok then Stored(old(vm.Now()), m, virt, b, vm.Now()) else vm.Now() == old(vm.Now())
  {
    hide Owns;
    ghost var v0 := vm.Now();
    PageIndices(virt);
    if PageOf(virt) in m.pages {
      GoodPage(v0, m, PageOf(virt));
      StoreKeeps(v0, m, virt, b);
      StoreIdle(v0, m.pages[PageOf(virt)], virt % PAGE_SIZE, b);
    }
    ok := StoreByte(vm, virt, b);
    assert ok ==> vm.Now() == v0.(ram := PutFrameByte(v0.ram, m.pages[PageOf(virt)], virt % PAGE_SIZE, b));
  }

  /** User mode may store at every address of an allocated page. */
  lemma OpenToUser(v: View, m: Mem, virt: Word)
    requires Good(v, m) && PageOf(virt) in m.pages
    ensures UserMayStore(v.ram, v.dir, virt)
  {
    UserPageOpen(v.ram, v.frames, v.dir, virt);
  }

  /** A store by user mode: it faults exactly when the page has no frame, since a page that has
      one is open. */
  method StoreRing3(vm: Vmm, virt: Word, b: Byte, ghost m: Mem) returns (ok: bool)
    requires vm.Ready() && Good(vm.Now(), m) && PdIndex(virt) < SELF
    requires PageOf(virt) in m.pages || Unmapped(vm.Now(), PageOf(virt))
    modifies vm`ram
    ensures vm.Ready() && Good(vm.Now(), m)
    ensures ok <==> PageOf(virt) in m.pages
    ensures if ok then Stored(old(vm.Now()), m, virt, b, vm.Now()) else vm.Now() == old(vm.Now())
  {
    hide Good, Stored;
    ok := false;
    if PageOf(virt) in m.pages { OpenToUser(vm.Now(), m, virt); }
    if UserMayStore(vm.ram, vm.dir, virt) { ok := StoreUser(vm, virt, b, m); }
  }
}
