/** The virtual filesystem over a FAT volume: opening paths, and who owns the nodes met on
    the way. */
module Vfs {
  import opened Bytes
  import opened CString
  import opened Heap
  import opened KernelHeap
  import opened FatTable
  import opened FatVolume
  import opened FatDir
  import opened FatLookup
  import opened VfsNode
  import opened VfsPath

  /** sizeof(vfs_node_t) */
  const NODE_SIZE := 152

  class Vfs {
    const v: Volume
    /** The node of the mounted root directory. */
    const root: Node?
    /** Where the nodes come from, and where each open one lies in it. */
    const heap: Heap
    var addresses: map<Node, int>
    /** The blocks of the open nodes. */
    ghost var held: map<Node, Grant>

    ghost predicate Valid()
      reads this, heap
    {
      && heap.Valid() && (root != null ==> root !in held) && addresses.Keys == held.Keys
      && (forall n :: n in held ==> Holds(heap.blocks, held[n], addresses[n]))
      && (forall m, n :: m in held && n in held && m != n ==> held[m] != held[n])
    }

    constructor (v: Volume, root: Node?, heap: Heap)
      requires heap.Valid()
      ensures this.v == v && this.root == root && this.heap == heap && held == map[] && Valid()
    {
      this.v, this.root, this.heap := v, root, heap;
      addresses, held := map[], map[];
    }

    /** vfs_finddir: a new open node for the entry, if there is one and kmalloc finds room for
        it; otherwise nothing. */
    method Finddir(node: Node, name: seq<Byte>, ghost own: Ownership) returns (next: Node?)
      requires Valid() && Sound(v.g, v.disk, own) && Known(v.g, v.disk, own, InfoOf(node))
      modifies this, heap
      ensures Valid()
      ensures var r := Fold(FatFind(v.g, v.disk, own), InfoOf(node), [name]);
        if r.Hit? && HasBlock(old(heap.blocks), NODE_SIZE)
        then next != null && fresh(next) && InfoOf(next) == r.info && heap.blocks == Taken(old(heap.blocks), NODE_SIZE)
             && held == old(held)[next := Granted(old(heap.blocks), NODE_SIZE)]
             && Live(heap.blocks) == Live(old(heap.blocks)) + {Granted(old(heap.blocks), NODE_SIZE)}
        else next == null && held == old(held) && heap.blocks == old(heap.blocks)
    {
      hide Sound, Known, FatFind, LookUp, Fold, HasBlock, Taken, Granted, Canonical, Linked, Live;
      next := FindEntry(node, name, own);
      if next != null {
        ghost var before := heap.blocks;
        var p := KmallocLive(heap, NODE_SIZE);
        if p == 0 { return null; }
        addresses := addresses[next := p];
        held := held[next := Granted(before, NODE_SIZE)];
      }
    }

    /** The contents of the node, before there is a block for it. */
    method FindEntry(node: Node, name: seq<Byte>, ghost own: Ownership) returns (next: Node?)
      requires Sound(v.g, v.disk, own) && Known(v.g, v.disk, own, InfoOf(node))
      ensures var r := Fold(FatFind(v.g, v.disk, own), InfoOf(node), [name]);
        if r.Hit? then next != null && fresh(next) && InfoOf(next) == r.info else next == null
    {
      FoldOne(FatFind(v.g, v.disk, own), InfoOf(node), name);
      if !HasFlag(node.flags, VFS_DIR) { return null; }
      ghost var ch := DirChain(v.g, v.disk, own, node.inode);
      DirOfIsDir(v.g, v.disk, own, node.inode, ch);
      next := VfsFindDir(v, node.inode, name, true, ch);
      if next != null { NodeIsInfo(v.g, v.disk, node.inode, ch, name, next); }
    }

    /** vfs_close: kfree of a heap node, which must be open and is so no longer; the root is
        never freed. */
    method Close(node: Node)
      requires Valid() && (node == root || node in held)
      modifies this, heap
      ensures Valid() && held == old(held) - {node}
      ensures node == root ==> heap.blocks == old(heap.blocks)
      ensures node != root ==> Live(heap.blocks) == Live(old(heap.blocks)) - {old(held)[node]}
    {
      if node != root {
        KfreeLive(heap, addresses[node], held[node]);
        addresses, held := addresses - {node}, held - {node};
      }
    }

    /** vfs_open: the fold of finddir over the path's components. Every node opened on the
        way is closed exactly once, the root never; only the result stays open. There must be
        room in the heap for as many nodes as the path has components, but never more than two. */
    method Open(path: seq<Byte>, ghost own: Ownership) returns (node: Node?)
      requires Valid() && Sound(v.g, v.disk, own) && Plain(path)
      requires root != null ==> root.flags == VFS_DIR && root.inode == 0
      modifies this, heap
      ensures Valid()
      ensures root == null ==> node == null && held == old(held) && heap.blocks == old(heap.blocks)
      ensures root != null ==>
        Opened(Fold(FatFind(v.g, v.disk, own), InfoOf(root), Components(WithoutSlash(path))),
               |Components(WithoutSlash(path))|, old(heap.blocks), old(held), node)
      ensures root != null && node != null ==> Known(v.g, v.disk, own, InfoOf(node)) && (node != root ==> fresh(node))
    {
      if root == null { return null; }
      FoldNone(FatFind(v.g, v.disk, own), InfoOf(root));
      RootKnown(v.g, v.disk, own, InfoOf(root));
      var p := path;
      if At(p, 0) == SLASH { p := p[1..]; }
      if At(p, 0) == 0 { return root; }
      node := Walk(p, own);
    }

    /** Node number k of a walk is open, and apart from it only what was open before. */
    ghost predicate AtTurn(before: seq<Block>, was: map<Node, Grant>, current: Node, k: nat)
      reads this, heap
    {
      && RoomInTurn(before, NODE_SIZE, k) && heap.blocks == AfterTurns(before, NODE_SIZE, k)
      && if k == 0 then current == root && held == was
         else current != root && current !in was && held == was[current := HeldInTurn(before, NODE_SIZE, k)]
    }

    /** What opening n components comes to, when they lead to r: the heap must have room for
        the nodes in turn; then only the last of them is held. */
    ghost predicate Opened(r: Lookup, n: nat, before: seq<Block>, was: map<Node, Grant>, node: Node?)
      reads this, heap, node
    {
      if r.Hit? && RoomInTurn(before, NODE_SIZE, n)
      then node != null && InfoOf(node) == r.info && AtTurn(before, was, node, n)
      else node == null && held == was && heap.blocks == before
    }

    method Walk(path: seq<Byte>, ghost own: Ownership) returns (node: Node?)
      requires Valid() && root != null && Sound(v.g, v.disk, own) && Known(v.g, v.disk, own, InfoOf(root))
      requires Plain(path)
      modifies this, heap
      ensures Valid()
      ensures Opened(Fold(FatFind(v.g, v.disk, own), InfoOf(root), Components(path)), |Components(path)|,
                     old(heap.blocks), old(held), node)
      ensures node != null ==> Known(v.g, v.disk, own, InfoOf(node)) && (node != root ==> fresh(node))
    {
      hide Sound, Known, FatFind, LookUp, Fold, Behind, NextSlash, RoomInTurn, AtTurn, Heap.Valid, Valid, Canonical;
      ghost var find := FatFind(v.g, v.disk, own);
      ghost var before, was := heap.blocks, held;
      var p := path;
      var current: Node := root;
      ghost var k := 0;
      Started();
      while At(p, 0) != 0
        invariant Valid() && Plain(p) && k + |Components(p)| == |Components(path)|
        invariant AtTurn(before, was, current, k) && Known(v.g, v.disk, own, InfoOf(current))
        invariant Fold(find, InfoOf(root), Components(path)) == Fold(find, InfoOf(current), Components(p))
        invariant current != root ==> fresh(current)
        decreases |p|
      {
        FoldFirst(find, InfoOf(current), p);
        FoldKnown(v.g, v.disk, own, InfoOf(current), [p[..NextSlash(p, COMPONENT_MAX)]]);
        var next;
        next, p := NextNode(current, p, before, was, k, own);
        if next == null {
          if RoomInTurn(before, NODE_SIZE, |Components(path)|) {
            MoreTurns(before, NODE_SIZE, k + 1, |Components(path)|);
          }
          return null;
        }
        current := next;
        k := k + 1;
      }
      FoldNone(find, InfoOf(current));
      TurnRoom(before, was, current, k);
      return current;
    }

    lemma Started()
      requires Valid() && root != null
      ensures AtTurn(heap.blocks, held, root, 0) && Canonical(heap.blocks, heap.start, heap.start + HEAP_SIZE)
    {
    }

    lemma TurnRoom(before: seq<Block>, was: map<Node, Grant>, current: Node, k: nat)
      requires AtTurn(before, was, current, k)
      ensures RoomInTurn(before, NODE_SIZE, k)
    {
    }

    /** From one node of the walk to the next. */
    method NextNode(current: Node, p: seq<Byte>, ghost before: seq<Block>, ghost was: map<Node, Grant>, ghost k: nat,
                    ghost own: Ownership)
      returns (next: Node?, rest: seq<Byte>)
      requires Valid() && Sound(v.g, v.disk, own) && Known(v.g, v.disk, own, InfoOf(current)) && Plain(p) && p != []
      requires AtTurn(before, was, current, k) && Canonical(before, heap.start, heap.start + HEAP_SIZE)
      modifies this, heap
      ensures Valid()
      ensures rest == Behind(p, NextSlash(p, COMPONENT_MAX)) && |rest| < |p| && Plain(rest)
      ensures var r := Fold(FatFind(v.g, v.disk, own), InfoOf(current), [p[..NextSlash(p, COMPONENT_MAX)]]);
        if r.Hit? && RoomInTurn(before, NODE_SIZE, k + 1)
        then next != null && fresh(next) && InfoOf(next) == r.info && AtTurn(before, was, next, k + 1)
        else next == null && held == was && heap.blocks == before
    {
      hide Sound, Known, FatFind, LookUp, Fold, Behind, NextSlash, RoomInTurn, HeldInTurn, AfterTurns, HasBlock;
      hide Taken, Granted;
      hide Canonical, Live, Plain;
      NextTurn(before, NODE_SIZE, k, heap.start, heap.start + HEAP_SIZE);
      next, rest := WalkStep(current, p, own);
      assert if k == 0 then was - {current} == was
             else was[current := HeldInTurn(before, NODE_SIZE, k)] - {current} == was;
      if next == null {
        SameLive(heap, before);
      } else {
        TurnedTo(before, NODE_SIZE, k + 1, heap.blocks, heap.start, heap.start + HEAP_SIZE);
      }
    }

    /** Only the last node of a walk is held, unless it is the root. */
    lemma AtTurnHeld(before: seq<Block>, was: map<Node, Grant>, node: Node, k: nat)
      requires Valid() && AtTurn(before, was, node, k) && Canonical(before, heap.start, heap.start + HEAP_SIZE)
      ensures RoomInTurn(before, NODE_SIZE, k) && heap.blocks == AfterTurns(before, NODE_SIZE, k)
      ensures WithNode(before, was, node)
    {
      hide Canonical, Live, RoomInTurn, HeldInTurn, AfterTurns, HasBlock, Taken, Granted, Heap.Valid, Holds;
      NoTurns(before, NODE_SIZE);
      NextTurn(before, NODE_SIZE, k, heap.start, heap.start + HEAP_SIZE);
      assert held - {node} == was;
    }

    /** The node is the root, or all that is open and live in addition to what was. */
    ghost predicate WithNode(before: seq<Block>, was: map<Node, Grant>, node: Node)
      reads this, heap
    {
      && Canonical(before, heap.start, heap.start + HEAP_SIZE) && (node == root || node in held) && held - {node} == was
      && (if node == root then heap.blocks == before else Live(heap.blocks) - {held[node]} == Live(before))
    }

    lemma HeldBefore(before: seq<Block>, was: map<Node, Grant>, node: Node)
      requires Valid() && WithNode(before, was, node) && node != root
      ensures forall n :: n in was ==> was[n] in Live(before)
    {
      forall n | n in was ensures was[n] in Live(before) {
        assert n in held - {node};
        assert Holds(heap.blocks, held[n], addresses[n]);
      }
    }

    /** vfs_close of the node that vfs_open returned puts heap and open nodes back. */
    method CloseBack(node: Node, ghost before: seq<Block>, ghost was: map<Node, Grant>)
      requires Valid() && WithNode(before, was, node)
      modifies this, heap
      ensures Valid() && held == was && heap.blocks == before
    {
      hide Canonical, Live;
      Close(node);
      SameLive(heap, before);
    }

    /** Looks one component up and closes the directory it was looked up in. */
    method WalkStep(current: Node, p: seq<Byte>, ghost own: Ownership) returns (next: Node?, rest: seq<Byte>)
      requires Valid() && Sound(v.g, v.disk, own) && Known(v.g, v.disk, own, InfoOf(current))
      requires Plain(p) && p != [] && (current == root || current in held)
      modifies this, heap
      ensures Valid()
      ensures rest == Behind(p, NextSlash(p, COMPONENT_MAX)) && |rest| < |p| && Plain(rest)
      ensures var r := Fold(FatFind(v.g, v.disk, own), InfoOf(current), [p[..NextSlash(p, COMPONENT_MAX)]]);
        var others := old(held) - {current};
        var kept := if current == root then Live(old(heap.blocks)) else Live(old(heap.blocks)) - {old(held)[current]};
        if r.Hit? && HasBlock(old(heap.blocks), NODE_SIZE)
        then next != null && fresh(next) && InfoOf(next) == r.info
             && held == others[next := Granted(old(heap.blocks), NODE_SIZE)]
             && Live(heap.blocks) == kept + {Granted(old(heap.blocks), NODE_SIZE)}
        else next == null && held == others && Live(heap.blocks) == kept
    {
      hide Sound, Known, FatFind, LookUp, Fold, Behind, NextSlash, Plain, HasBlock, Granted, Taken, Live;
      hide Heap.Valid, Holds;
      var component;
      ghost var was := held;
      component, rest := TakeComponent(p);
      next := Finddir(current, component, own);
      RemoveThenPut(was, current, next, held);
      ghost var now := held;
      if current != root { Close(current); }
      assert held == now - {current};
    }
  }

  /** Adding one node and removing another can be done in either order. */
  lemma RemoveThenPut(was: map<Node, Grant>, current: Node, next: Node?, now: map<Node, Grant>)
    requires if next == null then now == was else next in now && now == was[next := now[next]] && next != current
    ensures now - {current} == if next == null then was - {current} else (was - {current})[next := now[next]]
  {
  }

  /** The block is live, and the address is where its payload begins. */
  ghost predicate Holds(blocks: seq<Block>, g: Grant, at: int) {
    g in Live(blocks) && g.addr + HEADER_SIZE == at && 0 < g.addr && g.size >= 152
  }

  lemma FoldNone(find: FindDir, at: Info)
    ensures Fold(find, at, []) == Hit(at)
  {
  }

  lemma FoldOne(find: FindDir, at: Info, name: seq<Byte>)
    ensures Fold(find, at, [name]) == if HasFlag(at.flags, VFS_DIR) then find(at.inode, name) else Missing
  {
    if HasFlag(at.flags, VFS_DIR) {
      match find(at.inode, name)
      case Missing =>
      case Hit(next) => assert Fold(find, next, [name][1..]) == Hit(next);
    }
  }
}
