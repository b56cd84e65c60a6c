/** The shell's exec command: from a path on the FAT volume to a process and back. */
module ExecCommand {
  import opened Bytes
  import opened CString
  import opened FatLayout
  import opened FatVolume
  import opened FatFiles
  import opened FatLookup
  import opened Elf
  import opened OpenFile
  import opened VfsNode
  import opened VfsPath
  import opened Vmm
  import opened UserMemory
  import opened Process
  import F = Vfs
  import opened KernelHeap
  import S = Shell

  datatype Reply = NotFound | NotFile | Failed | Exited

  /** The bytes of the file that a lookup has led to. */
  ghost function ContentOf(g: Geometry, disk: seq<Sector>, own: Ownership, target: Lookup): seq<Byte>
    requires LeadsToFile(g, disk, own, target)
  {
    FileAt(g, disk, own, Place(target.info))
  }

  ghost predicate LeadsToFile(g: Geometry, disk: seq<Sector>, own: Ownership, target: Lookup) {
    target.Hit? && !HasFlag(target.info.flags, VFS_DIR) && LiveFile(g, disk, own, Place(target.info))
  }

  /** If the path leads to a file, `content` is its bytes, their image can be placed, and the
      program keeps to its pages. */
  ghost predicate Startable(g: Geometry, disk: seq<Sector>, own: Ownership, target: Lookup, content: seq<Byte>,
                            v: View, m: Mem, program: seq<Poke>) {
    LeadsToFile(g, disk, own, target) ==>
      content == ContentOf(g, disk, own, target) && Fresh(v, m, content) && InPages(program, Footprint(content))
  }

  /** The life of a process made of `content`, which ran its program to the end, from one view
      of memory to another. */
  ghost predicate Lived(p: Life, content: seq<Byte>, program: seq<Poke>, v0: View, m0: Mem, v2: View, m2: Mem) {
    && Lifetime(p) && Settlement(p) && Completed(p, program)
    && p.file == content && p.v0 == v0 && p.m0 == m0 && p.v2 == v2 && p.m2 == m2
  }

  /** The number of components of a path. */
  function Depth(path: seq<Byte>): nat { |Components(WithoutSlash(path))| }

  /** cmd_exec on a resolved path. The path is found if it leads somewhere and the heap has room
      for the nodes of the walk; a file is loaded if, with its node still open, the heap has room
      for the process and for the cluster of a read, the file is a program, and there are frames.
      Every node it opens is closed again, the heap's block list is what it was, and a process
      that ran was made of the bytes of the file that the path leads to, which are `content`. */
  method CmdExec(fs: F.Vfs, vm: Vmm, path: seq<Byte>, program: seq<Poke>,
                 ghost own: Ownership, ghost m: Mem, ghost target: Lookup, ghost content: seq<Byte>)
    returns (reply: Reply, faulted: bool, ghost m': Mem, ghost p: Life)
    requires fs.Valid() && Sound(fs.v.g, fs.v.disk, own) && Plain(path)
    requires fs.root != null && fs.root.flags == VFS_DIR && fs.root.inode == 0
    requires target == S.Target(fs.v.g, fs.v.disk, own, InfoOf(fs.root), path)
    requires vm.Ready() && Good(vm.Now(), m)
    requires Startable(fs.v.g, fs.v.disk, own, target, content, vm.Now(), m, program)
    modifies fs, fs.heap, vm`ram, vm.pmm`usedBlocks, vm.pmm.bitmap
    ensures vm.Ready() && Good(vm.Now(), m')
    ensures !faulted ==> fs.Valid() && fs.held == old(fs.held) && fs.heap.blocks == old(fs.heap.blocks)
    ensures reply == NotFound <==> target.Missing? || !RoomInTurn(old(fs.heap.blocks), F.NODE_SIZE, Depth(path))
    ensures reply == NotFile <==>
      target.Hit? && RoomInTurn(old(fs.heap.blocks), F.NODE_SIZE, Depth(path)) && HasFlag(target.info.flags, VFS_DIR)
    ensures reply == NotFound || reply == NotFile ==> !faulted && m' == m && vm.Now() == old(vm.Now())
    ensures reply == Failed || reply == Exited ==> LeadsToFile(fs.v.g, fs.v.disk, own, target)
    ensures reply == Exited ==> !faulted && Lived(p, content, program, old(vm.Now()), m, vm.Now(), m')
    ensures reply == Exited ==> Loads(old(fs.heap.blocks), Depth(path), fs.v.g, content)
    ensures reply == Failed ==> !Loads(old(fs.heap.blocks), Depth(path), fs.v.g, content) || NoFrame(vm.Now())
  {
    hide Good, Fresh, Footprint, LoadRoom, Unloadable, NoFrame, InPages, Lived, Sound, ContentOf, LeadsToFile;
    hide File.Valid;
    hide Depth, S.Target, RoomInTurn, AfterTurns, HasFlag, InfoOf, Plain, F.Vfs.Valid, Vmm.Now, F.Vfs.WithNode;
    hide File.Ready;
    faulted, m' := false, m;
    p := Life(vm.Now(), m, vm.Now(), m, vm.Now(), vm.Now(), m, [], 0, [], [], 0);
    ghost var before, was := fs.heap.blocks, fs.held;
    var file, isDir := OpenTarget(fs, path, own, target);
    if file == null { return if isDir then NotFile else NotFound, faulted, m', p; }
    reply, faulted, m', p := ExecFile(fs, vm, file, program, m, before, was);
  }

  /** With n nodes opened in turn there is room for the process and a cluster, and the content
      is a program. */
  ghost predicate Loads(blocks: seq<Heap.Block>, n: nat, g: Geometry, content: seq<Byte>) {
    && RoomInTurn(blocks, F.NODE_SIZE, n) && LoadRoom(AfterTurns(blocks, F.NODE_SIZE, n), g.ClusterBytes())
    && !Unloadable(content)
  }

  /** Opens the path; a directory is closed again at once. */
  method OpenTarget(fs: F.Vfs, path: seq<Byte>, ghost own: Ownership, ghost target: Lookup)
    returns (file: File?, isDir: bool)
    requires fs.Valid() && Sound(fs.v.g, fs.v.disk, own) && Plain(path)
    requires fs.root != null && fs.root.flags == VFS_DIR && fs.root.inode == 0
    requires target == S.Target(fs.v.g, fs.v.disk, own, InfoOf(fs.root), path)
    modifies fs, fs.heap
    ensures fs.Valid()
    ensures file == null ==> fs.held == old(fs.held) && fs.heap.blocks == old(fs.heap.blocks)
    ensures file == null && !isDir <==> target.Missing? || !RoomInTurn(old(fs.heap.blocks), F.NODE_SIZE, Depth(path))
    ensures isDir <==> target.Hit? && RoomInTurn(old(fs.heap.blocks), F.NODE_SIZE, Depth(path))
                       && HasFlag(target.info.flags, VFS_DIR)
    ensures file != null ==> !isDir && fresh(file) && file.Ready() && file.heap == fs.heap && file.v == fs.v
    ensures file != null ==> LeadsToFile(fs.v.g, fs.v.disk, own, target)
    ensures file != null ==> file.content == ContentOf(fs.v.g, fs.v.disk, own, target)
    ensures file != null ==> fs.WithNode(old(fs.heap.blocks), old(fs.held), file.node) && file.node != fs.root
    ensures file != null ==> RoomInTurn(old(fs.heap.blocks), F.NODE_SIZE, Depth(path))
                             && fs.heap.blocks == AfterTurns(old(fs.heap.blocks), F.NODE_SIZE, Depth(path))
  {
    hide Sound, FatFind, LookUp, Fold, LiveFile, FileAt, HasFlag, Plain, F.Vfs.AtTurn, F.Vfs.WithNode, Heap.Canonical;
    hide RoomInTurn, AfterTurns, Known, Components, WithoutSlash;
    ghost var before, was := fs.heap.blocks, fs.held;
    fs.Started();
    file, isDir := null, false;
    var node := fs.Open(path, own);
    if node == null { return; }
    fs.AtTurnHeld(before, was, node, Depth(path));
    isDir := HasFlag(node.flags, VFS_DIR);
    if isDir {
      fs.CloseBack(node, before, was);
      return;
    }
    RootIsDir(fs.root.flags);
    S.OpenedFile(fs.v.g, fs.v.disk, own, node);
    file := new File(fs.v, fs.heap, node, own, Place(InfoOf(node)));
  }

  lemma RootIsDir(flags: int)
    requires flags == VFS_DIR
    ensures HasFlag(flags, VFS_DIR)
  {
  }

  /** The rest of it, once the file is open: create, close, run, free. A fault stops the kernel. */
  method ExecFile(fs: F.Vfs, vm: Vmm, file: File, program: seq<Poke>, ghost m: Mem,
                  ghost before: seq<Heap.Block>, ghost was: map<Node, Heap.Grant>)
    returns (reply: Reply, faulted: bool, ghost m': Mem, ghost p: Life)
    requires fs.Valid() && fs.WithNode(before, was, file.node) && file.node != fs.root && file.Ready()
    requires file.heap == fs.heap
    requires vm.Ready() && Fresh(vm.Now(), m, file.content) && InPages(program, Footprint(file.content))
    modifies fs, fs.heap, vm`ram, vm.pmm`usedBlocks, vm.pmm.bitmap
    ensures vm.Ready() && Good(vm.Now(), m')
    ensures !faulted ==> fs.Valid() && fs.held == was && fs.heap.blocks == before
    ensures reply == Failed || reply == Exited
    ensures reply == Exited ==> !faulted && Lived(p, file.content, program, old(vm.Now()), m, vm.Now(), m')
    ensures reply == Exited ==> LoadRoom(old(fs.heap.blocks), file.v.g.ClusterBytes()) && !Unloadable(file.content)
    ensures reply == Failed ==>
      !LoadRoom(old(fs.heap.blocks), file.v.g.ClusterBytes()) || NoFrame(vm.Now()) || Unloadable(file.content)
  {
    hide Good, Fresh, Footprint, Lifetime, Settlement, Completed, LoadRoom, Unloadable, NoFrame, File.Ready, InPages;
    hide Created, Confined, Listed, Loadable, SettledAll, Settled, F.Vfs.WithNode, Heap.Canonical, F.Vfs.Valid;
    faulted, m' := false, m;
    p := Life(vm.Now(), m, vm.Now(), m, vm.Now(), vm.Now(), m, [], 0, [], [], 0);
    ghost var v0 := vm.Now();
    ghost var image;
    var proc;
    FreshSettled(v0, m, file.content);
    fs.HeldBefore(before, was, file.node);
    proc, faulted, m', image := CreateAndClose(fs, vm, file, m, before, was);
    if proc == null { return Failed, faulted, m', p; }
    p := Life(v0, m, vm.Now(), m', vm.Now(), vm.Now(), m', file.content, proc.entry, image,
              proc.mappedPages[..], proc.mappedCount);
    p := RunOpen(fs, vm, proc, program, p, before);
    m' := p.m2;
    reply := Exited;
  }

  /** process_create and vfs_close. */
  method CreateAndClose(fs: F.Vfs, vm: Vmm, file: File, ghost m: Mem,
                        ghost before: seq<Heap.Block>, ghost was: map<Node, Heap.Grant>)
    returns (proc: Process?, faulted: bool, ghost m': Mem, ghost image: seq<int>)
    requires fs.Valid() && fs.WithNode(before, was, file.node) && file.node != fs.root && file.Ready()
    requires file.heap == fs.heap
    requires vm.Ready() && Good(vm.Now(), m)
    requires Loadable(file.content) && SettledAll(vm.Now(), m, file.content)
    requires Settled(vm.Now(), m, STACK_END - USER_STACK_PAGES, STACK_END)
    modifies fs, fs.heap, vm`ram, vm.pmm`usedBlocks, vm.pmm.bitmap
    ensures vm.Ready() && Good(vm.Now(), m')
    ensures Confined(old(vm.Now()), m, vm.Now(), m', Footprint(file.content))
    ensures !faulted ==> fs.Valid() && fs.held == was
    ensures !faulted ==> Heap.Canonical(before, fs.heap.start, fs.heap.start + Heap.HEAP_SIZE)
    ensures proc == null && !faulted ==> fs.heap.blocks == before
    ensures proc != null ==> !faulted && fresh(proc) && fresh(proc.mappedPages) && proc.Backed(fs.heap.blocks)
    ensures proc != null ==> Heap.Live(fs.heap.blocks) == Heap.Live(before) + Grants(proc)
    ensures proc != null ==> Grants(proc) !! Heap.Live(before)
    ensures proc != null ==> Created(old(vm.Now()), m, vm.Now(), m', file.content, proc.entry, image)
    ensures proc != null ==> proc.mappedPages.Length == PROCESS_MAX_PAGES && proc.mappedCount <= PROCESS_MAX_PAGES
    ensures proc != null ==> Listed(proc.mappedPages[..], proc.mappedCount, image + StackList(USER_STACK_PAGES))
    ensures proc != null ==> LoadRoom(old(fs.heap.blocks), file.v.g.ClusterBytes()) && !Unloadable(file.content)
    ensures proc == null ==>
      !LoadRoom(old(fs.heap.blocks), file.v.g.ClusterBytes()) || Unloadable(file.content) || NoFrame(vm.Now())
  {
    hide Good, Footprint, LoadRoom, Unloadable, NoFrame, File.Ready, Created, Confined, Listed, Loadable, SettledAll;
    hide Settled;
    hide Heap.Canonical, Heap.Linked, Heap.Live;
    proc, faulted, m', image := ProcessCreate(vm, fs.heap, file, m);
    if faulted { return; }
    if proc == null {
      fs.CloseBack(file.node, before, was);
    } else {
      fs.Close(file.node);
    }
  }

  /** Running and freeing leaves the open nodes alone. */
  method RunOpen(fs: F.Vfs, vm: Vmm, proc: Process, program: seq<Poke>, ghost born: Life, ghost before: seq<Heap.Block>)
    returns (ghost p: Life)
    requires fs.Valid() && vm.Ready() && Good(vm.Now(), born.m1) && proc.mappedPages != vm.pmm.bitmap
    requires Begun(born) && born.v1 == vm.Now() && proc.Backed(fs.heap.blocks)
    requires born.list == proc.mappedPages[..] && born.n == proc.mappedCount <= |born.list|
    requires InPages(program, Footprint(born.file))
    requires Heap.Canonical(before, fs.heap.start, fs.heap.start + Heap.HEAP_SIZE)
    requires Grants(proc) !! Heap.Live(before) && Heap.Live(fs.heap.blocks) == Heap.Live(before) + Grants(proc)
    requires forall n :: n in fs.held ==> fs.held[n] in Heap.Live(before)
    modifies fs.heap, vm`ram, vm.pmm`usedBlocks, vm.pmm.bitmap
    ensures fs.Valid() && fs.heap.blocks == before && vm.Ready() && Good(vm.Now(), p.m2) && p.v2 == vm.Now()
    ensures Completed(p, program) && Lifetime(p) && Settlement(p)
    ensures p == born.(u1 := p.u1, v2 := p.v2, m2 := p.m2)
  {
    hide Good, Footprint, InPages, Begun, Heap.Canonical, Heap.Linked, Heap.Live, Completed, Lifetime, Settlement;
    var done;
    done, p := RunAndFree(vm, fs.heap, proc, program, born, before);
  }
}
