/** Who owns which physical frame, over any run of page allocations and unmappings. */
module FrameOwnership {
  import opened Paging
  import opened Pmm
  import opened Vmm

  /** The used frames are the reserved ones, the directory, the tables and the pages' frames,
      and no frame is two of these. */
  ghost predicate Partition(used: set<int>, reserved: set<int>, dir: int, tables: set<int>, pages: map<int, int>) {
    && used == reserved + {dir} + tables + pages.Values
    && 0 in reserved && dir !in reserved && dir !in tables && reserved !! tables
    && (reserved + {dir} + tables) !! pages.Values
    && Injective(pages)
  }

  ghost predicate Injective<K, V>(pages: map<K, V>) {
    forall p, q :: p in pages && q in pages && pages[p] == pages[q] ==> p == q
  }

  ghost predicate Backed(v: View, p: int, f: int)
    requires Directory(v.ram, v.frames, v.dir)
  {
    0 <= p < SELF * ENTRIES && 0 <= f < v.frames
    && var m := Lookup(v.ram, v.frames, v.dir, p); m.Some? && m.value.frame == f
  }

  /** `pages` are the pages allocated and not yet unmapped, each mapped to its own frame;
      `reserved` are the frames that were used before paging or have been lost since. */
  ghost predicate Owns(v: View, reserved: set<int>, pages: map<int, int>) {
    && Directory(v.ram, v.frames, v.dir)
    && Partition(v.used, reserved, v.dir, Tables(v.ram, v.dir), pages)
    && forall p :: p in pages ==> Backed(v, p, pages[p])
  }

  /** The frame that a page is about to lose to another one. */
  ghost function Replaced<K, V>(pages: map<K, V>, page: K): set<V> { if page in pages then {pages[page]} else {} }

  lemma AddValue<K, V>(pages: map<K, V>, page: K, f: V)
    requires Injective(pages) && f !in pages.Values
    ensures pages[page := f].Values + Replaced(pages, page) == pages.Values + {f}
    ensures pages[page := f].Values !! Replaced(pages, page) && Injective(pages[page := f])
  {
    var more := pages[page := f];
    assert more[page] == f;
    forall v | v in pages.Values ensures v in more.Values + Replaced(pages, page) {
      var p :| p in pages && pages[p] == v;
      if p != page { assert more[p] == v; }
    }
    forall v | v in more.Values ensures v in pages.Values + {f} && v !in Replaced(pages, page) {
      var p :| p in more && more[p] == v;
      if p != page { assert pages[p] == v; }
    }
  }

  lemma DropValue<K, V>(pages: map<K, V>, page: K)
    requires page in pages && Injective(pages)
    ensures (pages - {page}).Values == Except(pages.Values, pages[page])
  {
    var less := pages - {page};
    forall f | f in Except(pages.Values, pages[page]) ensures f in less.Values {
      var p :| p in pages && pages[p] == f;
      assert less[p] == f;
    }
  }

  lemma AddPartition(used: set<int>, used': set<int>, reserved: set<int>, dir: int, tables: set<int>, tables': set<int>,
                     pages: map<int, int>, page: int, f: int)
    requires Partition(used, reserved, dir, tables, pages) && f !in used
    requires (tables' == tables && used' == used + {f})
          || exists t :: t !in used && t != f && tables' == tables + {t} && used' == used + {f} + {t}
    ensures Partition(used', reserved + Replaced(pages, page), dir, tables', pages[page := f])
  {
    AddValue(pages, page, f);
  }

  lemma DropPartition(used: set<int>, reserved: set<int>, dir: int, tables: set<int>, pages: map<int, int>, page: int)
    requires Partition(used, reserved, dir, tables, pages) && page in pages
    ensures Partition(Except(used, pages[page]), reserved, dir, tables, pages - {page})
  {
    DropValue(pages, page);
    assert pages[page] in pages.Values;
  }

  /** Allocating a page hands it a frame that nobody owned. If it had one already, that stays
      used and backs nothing any more. */
  lemma AddOwns(a: View, page: nat, f: int, flags: nat, b: View, reserved: set<int>, pages: map<int, int>)
    requires Owns(a, reserved, pages) && PageAdded(a, page, f, flags, b) && page < SELF * ENTRIES
    ensures Owns(b, reserved + Replaced(pages, page), pages[page := f])
  {
    if Tables(b.ram, a.dir) == Tables(a.ram, a.dir) && b.used == a.used + {f} {
    } else {
      var t :| t !in a.used && t != f && TookTable(a, f, t, b);
    }
    AddPartition(a.used, b.used, reserved, a.dir, Tables(a.ram, a.dir), Tables(b.ram, b.dir), pages, page, f);
    var more := pages[page := f];
    forall p | p in more ensures Backed(b, p, more[p]) {
      if p != page { assert Backed(a, p, pages[p]); }
    }
  }

  lemma LoseOwns(a: View, f: int, b: View, reserved: set<int>, pages: map<int, int>)
    requires Owns(a, reserved, pages) && FrameLost(a, f, b)
    ensures Owns(b, reserved + {f}, pages)
  {
    forall p | p in pages ensures Backed(b, p, pages[p]) { assert Backed(a, p, pages[p]); }
  }

  /** Unmapping a page gives back exactly its frame. */
  lemma DropOwns(a: View, page: nat, f: int, b: View, reserved: set<int>, pages: map<int, int>)
    requires Owns(a, reserved, pages) && page in pages && PageRemoved(a, page, f, b)
    requires f == pages[page]
    ensures Owns(b, reserved, pages - {page})
  {
    DropPartition(a.used, reserved, a.dir, Tables(a.ram, a.dir), pages, page);
    var less := pages - {page};
    forall p | p in less ensures Backed(b, p, less[p]) { assert Backed(a, p, pages[p]); }
  }

  /** The counter of used frames is the sum over the owners. */
  lemma OwnsCount(v: View, reserved: set<int>, pages: map<int, int>)
    requires Owns(v, reserved, pages)
    ensures |v.used| == |reserved| + 1 + |Tables(v.ram, v.dir)| + |pages|
  {
    ValuesCount(pages);
    var tables := Tables(v.ram, v.dir);
    Disjoint2(reserved, {v.dir});
    Disjoint2(reserved + {v.dir}, tables);
    Disjoint2(reserved + {v.dir} + tables, pages.Values);
  }

  lemma Disjoint2<T>(a: set<T>, b: set<T>)
    requires a !! b
    ensures |a + b| == |a| + |b|
  {
  }

  lemma {:induction false} ValuesCount<K, V>(pages: map<K, V>)
    requires Injective(pages)
    ensures |pages.Values| == |pages|
    decreases |pages|
  {
    if |pages| > 0 {
      var p := AnyOf(pages.Keys);
      DropValue(pages, p);
      ValuesCount(pages - {p});
      assert pages.Values == Except(pages.Values, pages[p]) + {pages[p]};
    } else {
      assert pages == map[];
    }
  }

  lemma AnyOf<T>(s: set<T>) returns (x: T)
    requires s != {}
    ensures x in s
  {
    x :| x in s;
  }

  /** Right after vmm_init everything that was in use is reserved and no page is allocated. */
  lemma InitOwns(used: set<int>, v: View)
    requires Directory(v.ram, v.frames, v.dir) && 0 in used && v.dir !in used
    requires Tables(v.ram, v.dir) !! (used + {v.dir}) && v.used == used + {v.dir} + Tables(v.ram, v.dir)
    ensures Owns(v, used, map[])
  {
  }

  /** Booting: once the memory manager has its frames, vmm_init leaves everything that was in
      use reserved, and no page allocated. Runs start here. */
  method Boot(vm: Vmm)
    requires vm.pmm.Valid() && 0 in vm.pmm.Used() && Sized(vm.ram, vm.pmm.maxBlocks)
    requires vm.pmm.Free() != {} && forall f :: f in vm.pmm.Free() ==> Except(vm.pmm.Free(), f) != {}
    modifies vm, vm.pmm`usedBlocks, vm.pmm.bitmap
    ensures vm.Ready() && Owns(vm.Now(), old(vm.pmm.Used()), map[]) && vm.pmm.maxBlocks == old(vm.pmm.maxBlocks)
    ensures HasTable(vm.ram, vm.dir, 0) && Tables(vm.ram, vm.dir) == {TableFrame(vm.ram, vm.dir, 0)}
    ensures vm.dir in old(vm.pmm.Free()) && TableFrame(vm.ram, vm.dir, 0) in old(vm.pmm.Free())
    ensures vm.dir != TableFrame(vm.ram, vm.dir, 0)
    ensures vm.pmm.Used() == old(vm.pmm.Used()) + {vm.dir} + {TableFrame(vm.ram, vm.dir, 0)}
  {
    hide Owns, Lookup, Directory, UsedSet;
    vm.Init();
    InitOwns(old(vm.pmm.Used()), vm.Now());
  }

  // ---- Runs ----

  datatype State = State(view: View, reserved: set<int>, pages: map<int, int>)

  datatype Event = Alloc(page: nat, f: int, flags: nat) | Lose(f: int) | Unmap(page: nat)

  ghost predicate Step(a: State, ev: Event, b: State) {
    match ev
    case Alloc(page, f, flags) =>
      page < SELF * ENTRIES && PageAdded(a.view, page, f, flags, b.view)
      && b.reserved == a.reserved + Replaced(a.pages, page) && b.pages == a.pages[page := f]
    case Lose(f) =>
      FrameLost(a.view, f, b.view) && b.reserved == a.reserved + {f} && b.pages == a.pages
    case Unmap(page) =>
      page in a.pages && PageRemoved(a.view, page, a.pages[page], b.view)
      && b.reserved == a.reserved && b.pages == a.pages - {page}
  }

  lemma StepOwns(a: State, ev: Event, b: State)
    requires Owns(a.view, a.reserved, a.pages) && Step(a, ev, b)
    ensures Owns(b.view, b.reserved, b.pages)
  {
    match ev
    case Alloc(page, f, flags) => AddOwns(a.view, page, f, flags, b.view, a.reserved, a.pages);
    case Lose(f) => LoseOwns(a.view, f, b.view, a.reserved, a.pages);
    case Unmap(page) => DropOwns(a.view, page, a.pages[page], b.view, a.reserved, a.pages);
  }

  ghost predicate IsRun(states: seq<State>, events: seq<Event>) {
    |states| == |events| + 1 && Owns(states[0].view, states[0].reserved, states[0].pages)
    && forall i :: 0 <= i < |events| ==> StepAt(states, events, i)
  }

  ghost predicate StepAt(states: seq<State>, events: seq<Event>, i: nat)
    requires i < |events| && |states| == |events| + 1
  {
    Step(states[i], events[i], states[i + 1])
  }

  /** Over every run no frame backs two pages or is both a table and a page, and every owned
      frame is marked used. */
  lemma {:induction false} RunOwns(states: seq<State>, events: seq<Event>, i: nat)
    requires IsRun(states, events) && i < |states|
    ensures Owns(states[i].view, states[i].reserved, states[i].pages)
  {
    if i > 0 {
      RunOwns(states, events, i - 1);
      assert StepAt(states, events, i - 1);
      StepOwns(states[i - 1], events[i - 1], states[i]);
    }
  }

  /** Over every run the used count is reserved + directory + tables + pages. */
  lemma RunCount(states: seq<State>, events: seq<Event>, i: nat)
    requires IsRun(states, events) && i < |states|
    ensures var s := states[i];
      Directory(s.view.ram, s.view.frames, s.view.dir)
      && |s.view.used| == |s.reserved| + 1 + |Tables(s.view.ram, s.view.dir)| + |s.pages|
  {
    RunOwns(states, events, i);
    OwnsCount(states[i].view, states[i].reserved, states[i].pages);
  }
}
