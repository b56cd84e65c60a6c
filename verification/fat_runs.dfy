/** Runs of calls on a volume. */
module FatRuns {
  import opened Collections
  import opened Bytes
  import opened CString
  import opened FatLayout
  import opened FatTable
  import opened FatChain
  import opened FatData
  import opened FatRead
  import opened FatEntryCodec
  import opened FatWrite
  import opened FatVolume
  import opened FatWriteKeeps
  import opened FatCreateKeeps
  import opened FatFs
  import opened FatFiles

  /** A volume between calls: the disk, who owns what, and the clusters lost so far. */
  datatype Vol = Vol(disk: seq<Sector>, own: Ownership, lost: set<int>)

  /** One call that changes the volume, with everything that can come of it: a create that
      succeeds or fails, a first write that runs out of memory with cluster c in its hands, a
      write that is stored as far as the disk has room, perhaps through a handle that held a
      cluster since then. */
  datatype Event =
    | Created(inode: int, ch: seq<int>, name: seq<Byte>, isDir: bool, slot: Slot, taken: seq<int>)
    | CreateFailed
    | OutOfMemory(c: int)
    | Wrote(slot: Slot, held: seq<int>, ext: seq<int>, offset: nat, data: seq<Byte>, request: nat,
            first: int, size: int)

  /** The clusters that a call loses. */
  ghost function Leaked(ev: Event): set<int> {
    match ev
    case Created(_, _, name, isDir, _, taken) =>
      if isDir && name != [] && name[0] == DELETED then Elements(taken) else {}
    case OutOfMemory(c) => {c}
    case _ => {}
  }

  ghost predicate Step(g: Geometry, a: Vol, ev: Event, b: Vol) {
    match ev
    case Created(inode, ch, name, isDir, slot, taken) =>
      Creates(g, a.disk, b.disk, a.own, inode, ch, name, isDir, slot, taken)
      && Plain(name) && b.own == OwnedAfter(a.own, name, slot, taken) && b.lost == a.lost + Leaked(ev)
    case CreateFailed =>
      g.Fits(a.disk) && Untouched(g, a.disk, b.disk) && b.own == a.own && b.lost == a.lost
    case OutOfMemory(c) =>
      TookCluster(g, a.disk, b.disk, c) && b.own == a.own && b.lost == a.lost + Leaked(ev)
    case Wrote(slot, held, ext, offset, data, request, first, size) =>
      WriteDone(g, a.disk, b.disk, a.own, slot, held, ext, offset, data, request, first, size)
      && b.own == Grew(a.own, slot, held + ext) && Elements(held) <= a.lost && b.lost == a.lost - Elements(held)
  }

  /** The write starts behind everything its file could reach. */
  ghost predicate Overreaches(g: Geometry, a: Vol, ev: Event) {
    && ev.Wrote? && ev.slot in a.own && g.Fits(a.disk)
    && ev.offset > Room(g, a.disk, a.own[ev.slot] + ev.held)
  }

  /** What every call keeps: the volume is sound and what is lost is stray. */
  ghost predicate Kept(g: Geometry, a: Vol) {
    Sound(g, a.disk, a.own) && forall c :: c in a.lost ==> Stray(g, a.disk, a.own, c)
  }

  /** The clusters that are free, owned or lost. */
  ghost function Known(g: Geometry, a: Vol): set<int>
    requires g.Fits(a.disk)
  {
    Accounted(g, a.disk, a.own) + a.lost
  }

  lemma KeptSound(g: Geometry, a: Vol)
    requires Kept(g, a)
    ensures Sound(g, a.disk, a.own) && g.Fits(a.disk)
  {
  }

  // ---- One call ----

  /** No call loses sight of a cluster. */
  lemma StepKeeps(g: Geometry, a: Vol, ev: Event, b: Vol)
    requires Kept(g, a) && Step(g, a, ev, b)
    ensures g.Fits(a.disk) && Kept(g, b) && (CopiesAgree(g, a.disk) ==> CopiesAgree(g, b.disk))
    ensures Known(g, b) == Known(g, a)
  {
    hide Sound, CopiesAgree, Creates, TookCluster, WriteDone, Accounted, Geometry.Fits, Stray;
    KeptSound(g, a);
    match ev
    case Created(inode, ch, name, isDir, slot, taken) =>
      CreatedKeeps(g, a.disk, b.disk, a.own, inode, ch, name, isDir, slot, taken);
      forall c | c in b.lost ensures Stray(g, b.disk, b.own, c) {
        CreatedStray(g, a.disk, b.disk, a.own, inode, ch, name, isDir, slot, taken, c);
      }
    case CreateFailed =>
      FailedKept(g, a.disk, b.disk, a.own);
      forall c | c in a.lost ensures Stray(g, b.disk, b.own, c) { FailedStray(g, a.disk, b.disk, a.own, c); }
    case OutOfMemory(c) =>
      LostCluster(g, a.disk, b.disk, a.own, c);
      forall d | d in b.lost ensures Stray(g, b.disk, b.own, d) { TookStray(g, a, b, c, d); }
      TookCopies(g, a.disk, b.disk, c);
    case Wrote(slot, held, ext, offset, data, request, first, size) =>
      WroteKept(g, a.disk, b.disk, a.own, slot, held, ext, offset, data, request, first, size);
      forall c | c in b.lost ensures Stray(g, b.disk, b.own, c) {
        WroteStray(g, a.disk, b.disk, a.own, slot, held, ext, offset, data, request, first, size, c);
      }
  }

  lemma CreatedKeeps(g: Geometry, d0: seq<Sector>, d1: seq<Sector>, own: Ownership, inode: int, ch: seq<int>,
                     name: seq<Byte>, isDir: bool, s: Slot, taken: seq<int>)
    requires Creates(g, d0, d1, own, inode, ch, name, isDir, s, taken) && Plain(name)
    ensures var own' := OwnedAfter(own, name, s, taken);
      Sound(g, d1, own') && (CopiesAgree(g, d0) ==> CopiesAgree(g, d1)) && name != []
      && Elements(taken) <= Accounted(g, d0, own)
      && Accounted(g, d1, own') == Accounted(g, d0, own) - (if isDir && name[0] == DELETED then Elements(taken) else {})
  {
    CreatesKeeps(g, d0, d1, own, inode, ch, name, isDir, s, taken);
    CreateAccounts(g, d0, d1, own, inode, ch, name, isDir, s, taken);
  }

  /** What was stray stays so, and the cluster of an entry that reads as deleted becomes so. */
  lemma CreatedStray(g: Geometry, d0: seq<Sector>, d1: seq<Sector>, own: Ownership, inode: int, ch: seq<int>,
                     name: seq<Byte>, isDir: bool, s: Slot, taken: seq<int>, c: int)
    requires Creates(g, d0, d1, own, inode, ch, name, isDir, s, taken) && Plain(name)
    requires Stray(g, d0, own, c) || (c in taken && isDir && name[0] == DELETED)
    ensures Stray(g, d1, OwnedAfter(own, name, s, taken), c)
  {
    hide Sound, Owned, Owner;
    var e := EntryFor(name, taken);
    FieldStart(name);
    MadeFree(g, d0, d1, own, inode, ch, s, e, taken);
    OwnedAdds(own, s, e, taken, c);
  }

  lemma FailedKept(g: Geometry, d0: seq<Sector>, d1: seq<Sector>, own: Ownership)
    requires Sound(g, d0, own) && Untouched(g, d0, d1)
    ensures Sound(g, d1, own) && Accounted(g, d1, own) == Accounted(g, d0, own)
    ensures (CopiesAgree(g, d0) ==> CopiesAgree(g, d1)) && (WellFormed(g, d0, own) ==> WellFormed(g, d1, own))
  {
    if d1 != d0 {
      var c :| OnlyFreeCluster(g, d0, d1, c);
      FailedKeeps(g, d0, d1, own, c);
    }
  }

  lemma FailedStray(g: Geometry, d0: seq<Sector>, d1: seq<Sector>, own: Ownership, c: int)
    requires g.Fits(d0) && Untouched(g, d0, d1) && Stray(g, d0, own, c)
    ensures g.Fits(d1) && Stray(g, d1, own, c)
  {
    if d1 != d0 {
      var x :| OnlyFreeCluster(g, d0, d1, x);
    }
  }

  lemma TookStray(g: Geometry, a: Vol, b: Vol, c: int, d: int)
    requires Kept(g, a) && TookCluster(g, a.disk, b.disk, c) && b.own == a.own && (d == c || d in a.lost)
    ensures Stray(g, b.disk, b.own, d)
  {
    hide Sound;
    KeptSound(g, a);
    FreeNotOwned(g, a.disk, a.own);
  }

  lemma TookCopies(g: Geometry, d0: seq<Sector>, d1: seq<Sector>, c: int)
    requires TookCluster(g, d0, d1, c)
    ensures CopiesAgree(g, d0) ==> CopiesAgree(g, d1)
  {
  }

  lemma WroteKept(g: Geometry, d0: seq<Sector>, d1: seq<Sector>, own: Ownership, s: Slot, held: seq<int>,
                  ext: seq<int>, offset: nat, data: seq<Byte>, request: nat, first: int, size: int)
    requires WriteDone(g, d0, d1, own, s, held, ext, offset, data, request, first, size)
    ensures var own' := Grew(own, s, held + ext);
      g.Fits(d0) && Sound(g, d1, own') && g.Fits(d1) && (CopiesAgree(g, d0) ==> CopiesAgree(g, d1))
      && Accounted(g, d1, own') == Accounted(g, d0, own) + Elements(held)
  {
    hide Sound, Accounted;
    WriteFinished(g, d0, d1, own, s, held, ext, offset, data, request, first, size);
  }

  lemma WroteStray(g: Geometry, d0: seq<Sector>, d1: seq<Sector>, own: Ownership, s: Slot, held: seq<int>,
                   ext: seq<int>, offset: nat, data: seq<Byte>, request: nat, first: int, size: int, c: int)
    requires WriteDone(g, d0, d1, own, s, held, ext, offset, data, request, first, size)
    requires g.Fits(d0) && Stray(g, d0, own, c) && c !in held
    ensures Stray(g, d1, Grew(own, s, held + ext), c)
  {
    hide Sound, Content, Chain;
    OwnedGrows(own, s, held + ext, c);
  }

  /** A call leaves every file alone that it does not write. */
  lemma StepKeepsFile(g: Geometry, a: Vol, ev: Event, b: Vol, t: Slot)
    requires Kept(g, a) && Step(g, a, ev, b) && !(ev.Wrote? && ev.slot == t)
    ensures FileKept(g, a.disk, b.disk, a.own, b.own, t)
  {
    hide Sound, FileKept, Creates, TookCluster, WriteDone;
    match ev
    case Created(inode, ch, name, isDir, slot, taken) =>
      CreateKeepsFile(g, a.disk, b.disk, a.own, inode, ch, name, isDir, slot, taken, t);
    case CreateFailed =>
      FailedKeepsFile(g, a.disk, b.disk, a.own, t);
    case OutOfMemory(c) =>
      LostCluster(g, a.disk, b.disk, a.own, c);
    case Wrote(slot, held, ext, offset, data, request, first, size) =>
      WriteFinished(g, a.disk, b.disk, a.own, slot, held, ext, offset, data, request, first, size);
  }

  lemma FailedKeepsFile(g: Geometry, d0: seq<Sector>, d1: seq<Sector>, own: Ownership, t: Slot)
    requires Sound(g, d0, own) && Untouched(g, d0, d1)
    ensures FileKept(g, d0, d1, own, own, t)
  {
    FreeNotOwned(g, d0, own);
    if d1 != d0 {
      var c :| OnlyFreeCluster(g, d0, d1, c);
      UnownedFile(g, d0, d1, own, c, t);
    }
  }

  lemma CreateKeepsFile(g: Geometry, d0: seq<Sector>, d1: seq<Sector>, own: Ownership, inode: int, ch: seq<int>,
                        name: seq<Byte>, isDir: bool, s: Slot, taken: seq<int>, t: Slot)
    requires Creates(g, d0, d1, own, inode, ch, name, isDir, s, taken)
    ensures FileKept(g, d0, d1, own, OwnedAfter(own, name, s, taken), t)
  {
    if LiveFile(g, d0, own, t) {
      CreatesKeeps(g, d0, d1, own, inode, ch, name, isDir, s, taken);
      MadeKeepsEntry(g, d0, d1, own, inode, ch, s, EntryFor(name, taken), taken, t);
      SameFile(g, d0, d1, own, OwnedAfter(own, name, s, taken), t);
    }
  }

  lemma MadeKeepsEntry(g: Geometry, d0: seq<Sector>, d1: seq<Sector>, own: Ownership, inode: int, ch: seq<int>,
                       s: Slot, e: DirEntry, taken: seq<int>, t: Slot)
    requires Made(g, d0, d1, own, inode, ch, s, e, taken) && LiveFile(g, d0, own, t)
    ensures t in Added(own, s, e, taken) && Added(own, s, e, taken)[t] == own[t]
    ensures Placed(g, d1, t) && EntryOf(g, d1, t) == EntryOf(g, d0, t)
    ensures g.Fits(d1) && Clusters(g, own[t]) && Content(g, d1, own[t]) == Content(g, d0, own[t])
  {
    OwnedIsOwner(g, d0, own, t);
    SlotNotOwned(g, d0, d1, own, inode, ch, s, e, taken);
    MadeEntries(g, d0, d1, own, inode, ch, s, e, taken, t);
    MadeKeepsFile(g, d0, d1, own, inode, ch, s, e, taken, t);
  }

  /** A call keeps the clusters of every file up to its size exactly when it does not overreach. */
  lemma StepCovers(g: Geometry, a: Vol, ev: Event, b: Vol)
    requires WellFormed(g, a.disk, a.own) && Step(g, a, ev, b)
    ensures WellFormed(g, b.disk, b.own) <==> !Overreaches(g, a, ev)
  {
    hide Sound, WellFormed, Creates, TookCluster, WriteDone;
    SoundPart(g, a.disk, a.own);
    match ev
    case Created(inode, ch, name, isDir, slot, taken) =>
      CreateCovers(g, a.disk, b.disk, a.own, inode, ch, name, isDir, slot, taken);
    case CreateFailed =>
      FailedKept(g, a.disk, b.disk, a.own);
    case OutOfMemory(c) =>
      LostCluster(g, a.disk, b.disk, a.own, c);
    case Wrote(slot, held, ext, offset, data, request, first, size) =>
      WriteFinished(g, a.disk, b.disk, a.own, slot, held, ext, offset, data, request, first, size);
      WroteLive(g, a.disk, b.disk, a.own, slot, held, ext, offset, data, request, first, size);
  }

  lemma WroteLive(g: Geometry, d0: seq<Sector>, d1: seq<Sector>, own: Ownership, s: Slot, held: seq<int>,
                  ext: seq<int>, offset: nat, data: seq<Byte>, request: nat, first: int, size: int)
    requires WriteDone(g, d0, d1, own, s, held, ext, offset, data, request, first, size)
    ensures LiveFile(g, d0, own, s) && g.Fits(d0) && g.Fits(d1) && s in own
  {
  }

  lemma SoundPart(g: Geometry, disk: seq<Sector>, own: Ownership)
    requires WellFormed(g, disk, own)
    ensures Sound(g, disk, own) && g.Fits(disk)
  {
  }

  // ---- A full disk stays full ----

  /** A file whose clusters do not reach its size, with none left to give it. */
  ghost predicate Starved(g: Geometry, a: Vol, t: Slot) {
    && LiveFile(g, a.disk, a.own, t) && !IsFile(g, a.disk, a.own, t)
    && a.own[t] != [] && FreeSet(Fat(g, a.disk)) == {}
  }

  lemma OverreachStarves(g: Geometry, a: Vol, ev: Event, b: Vol)
    requires WellFormed(g, a.disk, a.own) && Step(g, a, ev, b) && Overreaches(g, a, ev)
    ensures ev.Wrote? && Starved(g, b, ev.slot)
  {
    hide Sound, WellFormed, Stored;
    SoundPart(g, a.disk, a.own);
    FileOfWellFormed(g, a.disk, a.own, ev.slot);
    OverreachFills(g, a.disk, b.disk, a.own, ev.slot, ev.held, ev.ext, ev.offset, ev.data, ev.request,
                 ev.first, ev.size);
    WriteFinished(g, a.disk, b.disk, a.own, ev.slot, ev.held, ev.ext, ev.offset, ev.data, ev.request,
                 ev.first, ev.size);
  }

  lemma FileOfWellFormed(g: Geometry, disk: seq<Sector>, own: Ownership, t: Slot)
    requires WellFormed(g, disk, own) && LiveFile(g, disk, own, t)
    ensures IsFile(g, disk, own, t)
  {
  }

  /** Bytes are stored only inside the clusters, so an overreaching write stores none and
      has taken every cluster there was. */
  lemma OverreachFills(g: Geometry, d0: seq<Sector>, d1: seq<Sector>, own: Ownership, s: Slot, held: seq<int>,
                       ext: seq<int>, offset: nat, data: seq<Byte>, request: nat, first: int, size: int)
    requires WriteDone(g, d0, d1, own, s, held, ext, offset, data, request, first, size)
    ensures g.Fits(d0) && g.Fits(d1) && s in own
    ensures offset > Room(g, d0, own[s] + held) ==> FreeSet(Fat(g, d1)) == {}
  {
    hide Sound, Content, Grown, FreeSet, Chain;
    if data != [] {
      GrownCount(Fat(g, d0), Fat(g, d1), first, own[s] + held, ext);
      ContentFits(g, d1, first, own[s] + held + ext);
      MulMono(|own[s] + held + ext|, |own[s] + held| + |FreeSet(Fat(g, d0))|, g.ClusterBytes());
    }
  }

  lemma StarvedStays(g: Geometry, a: Vol, ev: Event, b: Vol, t: Slot)
    requires Kept(g, a) && Starved(g, a, t) && Step(g, a, ev, b)
    ensures Starved(g, b, t)
  {
    hide Sound, Creates, WriteDone, Starved, Kept;
    StepKeeps(g, a, ev, b);
    KeptSound(g, a);
    KeptSound(g, b);
    match ev
    case Created(inode, ch, name, isDir, slot, taken) =>
      CreateStarved(g, a, b, inode, ch, name, isDir, slot, taken, t);
    case CreateFailed =>
      NothingFree(g, a, b, t);
    case OutOfMemory(c) =>
      assert false by { NoneFree(g, a, t, c); }
    case Wrote(slot, held, ext, offset, data, request, first, size) =>
      WriteStarved(g, a, b, slot, held, ext, offset, data, request, first, size, t);
  }

  lemma NoneFree(g: Geometry, a: Vol, t: Slot, c: int)
    requires Starved(g, a, t)
    ensures g.Fits(a.disk) && c !in FreeSet(Fat(g, a.disk))
  {
  }

  /** With no cluster free a failed create has changed nothing at all. */
  lemma NothingFree(g: Geometry, a: Vol, b: Vol, t: Slot)
    requires Starved(g, a, t) && g.Fits(a.disk) && Untouched(g, a.disk, b.disk) && b.own == a.own
    ensures Starved(g, b, t)
  {
  }

  lemma CreateStarved(g: Geometry, a: Vol, b: Vol, inode: int, ch: seq<int>,
                      name: seq<Byte>, isDir: bool, s: Slot, taken: seq<int>, t: Slot)
    requires Starved(g, a, t) && Creates(g, a.disk, b.disk, a.own, inode, ch, name, isDir, s, taken)
    requires b.own == OwnedAfter(a.own, name, s, taken) && Sound(g, b.disk, b.own)
    ensures Starved(g, b, t)
  {
    hide Sound;
    MadeKeepsEntry(g, a.disk, b.disk, a.own, inode, ch, s, EntryFor(name, taken), taken, t);
  }

  lemma WriteStarved(g: Geometry, a: Vol, b: Vol, s: Slot, held: seq<int>, ext: seq<int>, offset: nat, data: seq<Byte>,
                     request: nat, first: int, size: int, t: Slot)
    requires Starved(g, a, t)
    requires WriteDone(g, a.disk, b.disk, a.own, s, held, ext, offset, data, request, first, size)
    requires b.own == Grew(a.own, s, held + ext)
    ensures Starved(g, b, t)
  {
    hide Sound, Content, Chain;
    if ext != [] {
      assert false by { NoneFree(g, a, t, ext[0]); }
    }
    WriteFinished(g, a.disk, b.disk, a.own, s, held, ext, offset, data, request, first, size);
    if t != s { WriteKeepsEntry(g, a.disk, b.disk, a.own, s, held, ext, offset, data, request, first, size, t); }
  }

  /** The entries of the other files do not change. */
  lemma WriteKeepsEntry(g: Geometry, d0: seq<Sector>, d1: seq<Sector>, own: Ownership, s: Slot, held: seq<int>,
                        ext: seq<int>, offset: nat, data: seq<Byte>, request: nat, first: int, size: int, t: Slot)
    requires WriteDone(g, d0, d1, own, s, held, ext, offset, data, request, first, size)
    requires LiveFile(g, d0, own, t) && t != s
    ensures |d1| == |d0| && EntryOf(g, d1, t) == EntryOf(g, d0, t)
  {
    hide Content, Chain, Sound;
    OwnedIsOwner(g, d0, own, t);
    if held == [] {
      assert own[s] + held == own[s];
      WriteEntries(g, d0, d1, own, s, ext, offset, data, first, size, t);
    } else {
      assert own[s] + held + ext == held + ext;
      FreeNotOwned(g, d0, own);
      UnownedOffDirs(g, d0, own, held + ext, t.lba);
      LocationPut(d0[s.lba], s.index, first, size);
    }
  }

  // ---- Runs of calls ----

  ghost predicate IsRun(g: Geometry, states: seq<Vol>, events: seq<Event>) {
    |states| == |events| + 1 && Kept(g, states[0])
    && forall i :: 0 <= i < |events| ==> Step(g, states[i], events[i], states[i + 1])
  }

  /** Over every run of calls, whatever comes of each: chains of live entries stay in range,
      terminated and pairwise disjoint, the copies of the FAT agree, and every cluster is
      at any time either free or owned or lost, as it was one of these at the start. */
  lemma {:induction false} RunKeeps(g: Geometry, states: seq<Vol>, events: seq<Event>, i: nat)
    requires IsRun(g, states, events) && i < |states|
    ensures Kept(g, states[i]) && g.Fits(states[0].disk) && g.Fits(states[i].disk)
    ensures CopiesAgree(g, states[0].disk) ==> CopiesAgree(g, states[i].disk)
    ensures FreeSet(Fat(g, states[i].disk)) !! Owned(states[i].own)
    ensures Accounted(g, states[i].disk, states[i].own) !! states[i].lost
    ensures Known(g, states[i]) == Known(g, states[0])
  {
    hide Sound, Step, Kept, CopiesAgree, Known, Geometry.Fits;
    KeptSound(g, states[0]);
    if i > 0 {
      RunKeeps(g, states, events, i - 1);
      StepKeeps(g, states[i - 1], events[i - 1], states[i]);
    }
    KeptSound(g, states[i]);
    FreeNotOwned(g, states[i].disk, states[i].own);
    LostApart(g, states[i]);
  }

  lemma LostApart(g: Geometry, a: Vol)
    requires Kept(g, a)
    ensures g.Fits(a.disk) && Accounted(g, a.disk, a.own) !! a.lost
  {
    forall c | c in a.lost ensures c !in Accounted(g, a.disk, a.own) {
      assert Stray(g, a.disk, a.own, c);
    }
  }

  /** From a start that has lost nothing, the same clusters are free or owned as then exactly
      when nothing is lost now; and that is so when no call leaks. */
  lemma RunAccounts(g: Geometry, states: seq<Vol>, events: seq<Event>, i: nat)
    requires IsRun(g, states, events) && i < |states| && states[0].lost == {}
    ensures g.Fits(states[0].disk) && g.Fits(states[i].disk)
    ensures var before, now := Accounted(g, states[0].disk, states[0].own), Accounted(g, states[i].disk, states[i].own);
      now <= before && |now| + |states[i].lost| == |before| && (now == before <==> states[i].lost == {})
    ensures (forall k :: 0 <= k < i ==> Leaked(events[k]) == {}) ==> states[i].lost == {}
  {
    hide Sound, Step, Kept, CopiesAgree, Accounted;
    RunKeeps(g, states, events, i);
    var now, lost := Accounted(g, states[i].disk, states[i].own), states[i].lost;
    assert now + lost == Accounted(g, states[0].disk, states[0].own);
    if forall k :: 0 <= k < i ==> Leaked(events[k]) == {} { NoLeak(g, states, events, i); }
  }

  lemma {:induction false} NoLeak(g: Geometry, states: seq<Vol>, events: seq<Event>, i: nat)
    requires IsRun(g, states, events) && i < |states| && states[0].lost == {}
    requires forall k :: 0 <= k < i ==> Leaked(events[k]) == {}
    ensures states[i].lost == {}
  {
    hide Creates, TookCluster, WriteDone, Kept, Leaked;
    if i > 0 {
      NoLeak(g, states, events, i - 1);
      assert Step(g, states[i - 1], events[i - 1], states[i]);
    }
  }

  /** Over every run a file keeps its bytes until somebody writes to it. */
  lemma {:induction false} RunKeepsFile(g: Geometry, states: seq<Vol>, events: seq<Event>, t: Slot, i: nat, j: nat)
    requires IsRun(g, states, events) && i <= j < |states|
    requires LiveFile(g, states[i].disk, states[i].own, t)
    requires forall k :: i <= k < j ==> !(events[k].Wrote? && events[k].slot == t)
    ensures LiveFile(g, states[j].disk, states[j].own, t)
    ensures IsFile(g, states[j].disk, states[j].own, t) <==> IsFile(g, states[i].disk, states[i].own, t)
    ensures FileAt(g, states[j].disk, states[j].own, t) == FileAt(g, states[i].disk, states[i].own, t)
    decreases j
  {
    hide Kept, Step, LiveFile, FileAt;
    if i < j {
      RunKeepsFile(g, states, events, t, i, j - 1);
      RunKeeps(g, states, events, j - 1);
      StepKeepsFile(g, states[j - 1], events[j - 1], states[j], t);
    }
  }

  /** From a well-formed start the clusters of every file reach its size exactly as long as
      no write has started behind everything its file could reach. */
  lemma RunCovers(g: Geometry, states: seq<Vol>, events: seq<Event>, i: nat)
    requires IsRun(g, states, events) && WellFormed(g, states[0].disk, states[0].own) && i < |states|
    ensures WellFormed(g, states[i].disk, states[i].own) <==>
      forall k :: 0 <= k < i ==> !Overreaches(g, states[k], events[k])
  {
    hide Kept, Step, Overreaches, LiveFile, IsFile, WellFormed, Starved;
    var over, t := RunCoverage(g, states, events, i);
    if over { StarvedIsUncovered(g, states[i], t); }
  }

  lemma StarvedIsUncovered(g: Geometry, a: Vol, t: Slot)
    requires Starved(g, a, t)
    ensures !WellFormed(g, a.disk, a.own)
  {
  }

  /** Either no write has overreached yet, or some file is starved for good. */
  lemma {:induction false} RunCoverage(g: Geometry, states: seq<Vol>, events: seq<Event>, i: nat) returns (over: bool,
                                       t: Slot)
    requires IsRun(g, states, events) && WellFormed(g, states[0].disk, states[0].own) && i < |states|
    ensures over <==> exists k :: 0 <= k < i && Overreaches(g, states[k], events[k])
    ensures if over then Starved(g, states[i], t) else WellFormed(g, states[i].disk, states[i].own)
  {
    hide Kept, Step, Overreaches, LiveFile, IsFile, WellFormed, Starved;
    RunKeeps(g, states, events, if i > 0 then i - 1 else 0);
    over, t := false, Slot(0, 0);
    if i > 0 {
      over, t := RunCoverage(g, states, events, i - 1);
      var a, ev, b := states[i - 1], events[i - 1], states[i];
      if over {
        StarvedStays(g, a, ev, b, t);
      } else {
        StepCovers(g, a, ev, b);
        if Overreaches(g, a, ev) {
          OverreachStarves(g, a, ev, b);
          over, t := true, ev.slot;
        }
      }
    }
  }
}
