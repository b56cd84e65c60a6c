/** Open files, as the kernel reads them. */
module OpenFile {
  import opened Bytes
  import opened FatTable
  import opened FatData
  import opened FatLayout
  import opened FatRead
  import opened FatVolume
  import opened FatFiles
  import opened Heap
  import opened KernelHeap
  import opened VfsNode

  /** One read of less than two gigabytes, with its cluster buffer from the kernel heap, which is
      afterwards what it was: it brings what is there if there is room for the buffer, and
      nothing if there is not. */
  method ReadBuffered(v: Volume, heap: Heap, file: Node, offset: nat, size: nat, buf: array<Byte>,
                      ghost own: Ownership, ghost s: Slot)
    returns (bytes: int)
    requires LiveFile(v.g, v.disk, own, s) && Handle(v.g, v.disk, own, s, [], file) && heap.Valid()
    requires size <= buf.Length && size < 0x8000_0000 && offset < 0x1_0000_0000
    modifies buf, heap
    ensures heap.Valid() && heap.blocks == old(heap.blocks)
    ensures if HasBlock(heap.blocks, v.g.ClusterBytes())
            then bytes == Readable(|FileAt(v.g, v.disk, own, s)|, offset, size)
            else bytes <= 0
    ensures bytes <= size
    ensures HasBlock(heap.blocks, v.g.ClusterBytes()) ==>
      bytes == size || (bytes == 0 && |FileAt(v.g, v.disk, own, s)| <= offset)
      || offset + bytes == |FileAt(v.g, v.disk, own, s)|
    ensures bytes > 0 ==> offset + bytes <= |FileAt(v.g, v.disk, own, s)|
    ensures bytes > 0 ==> buf[..bytes] == FileAt(v.g, v.disk, own, s)[offset..offset + bytes]
  {
    hide FileAt, LiveFile, Handle, HasBlock, Granted, Taken;
    BufferSize(v.g, v.disk, own, s);
    ghost var before := heap.blocks;
    var p := KmallocLive(heap, v.g.ClusterBytes());
    bytes := ReadChunk(v, file, offset, size, buf, p != 0, own, s);
    if p != 0 {
      KfreeLive(heap, p, Granted(before, v.g.ClusterBytes()));
      SameLive(heap, before);
    }
  }

  lemma BufferSize(g: Geometry, disk: seq<Sector>, own: Ownership, s: Slot)
    requires LiveFile(g, disk, own, s)
    ensures 0 <= g.ClusterBytes() < 0x1_0000_0000
  {
  }

  /** The same with the outcome of kmalloc given. */
  method ReadChunk(v: Volume, file: Node, offset: nat, size: nat, buf: array<Byte>, memory: bool,
                   ghost own: Ownership, ghost s: Slot)
    returns (bytes: int)
    requires LiveFile(v.g, v.disk, own, s) && Handle(v.g, v.disk, own, s, [], file)
    requires size <= buf.Length && size < 0x8000_0000 && offset < 0x1_0000_0000
    modifies buf
    ensures if memory then bytes == Readable(|FileAt(v.g, v.disk, own, s)|, offset, size) else bytes <= 0
    ensures bytes <= size
    ensures bytes > 0 ==> offset + bytes <= |FileAt(v.g, v.disk, own, s)|
    ensures bytes > 0 ==> buf[..bytes] == FileAt(v.g, v.disk, own, s)[offset..offset + bytes]
  {
    hide FileAt, Splice, LiveFile, Handle, IsFile, EntryOf, Placed, Geometry.ClusterBytes;
    ghost var data := FileAt(v.g, v.disk, own, s);
    PastChain(v.g, v.disk, own, s, offset);
    bytes := ReadFile(v, file, offset, size, buf, memory, own, s);
    if bytes > 0 { SpliceHead(old(buf[..]), data[offset..offset + bytes]); }
  }

  /** More than a cluster past the end of the chain there is nothing to read. */
  lemma PastChain(g: Geometry, disk: seq<Sector>, own: Ownership, s: Slot, offset: nat)
    requires LiveFile(g, disk, own, s)
    ensures s in own && Placed(g, disk, s) && g.ClusterBytes() > 0
    ensures offset / g.ClusterBytes() > |own[s]| ==> |FileAt(g, disk, own, s)| <= offset
    ensures |FileAt(g, disk, own, s)| <= EntryOf(g, disk, s).fileSize
  {
    DivMod(offset, g.ClusterBytes());
    if offset / g.ClusterBytes() > |own[s]| {
      MulMono(|own[s]|, offset / g.ClusterBytes(), g.ClusterBytes());
    }
  }

  lemma SpliceHead(s: seq<Byte>, t: seq<Byte>)
    requires |t| <= |s|
    ensures Splice(s, 0, t)[..|t|] == t
  {
  }

  /** A file of a FAT volume opened for reading. */
  class File {
    const v: Volume
    const heap: Heap
    const node: Node
    ghost const own: Ownership
    ghost const slot: Slot
    ghost const content: seq<Byte>

    /** The node is a handle of a live file of the volume, and `content` is its bytes. */
    ghost predicate Valid()
      reads v, node
    {
      && LiveFile(v.g, v.disk, own, slot) && Handle(v.g, v.disk, own, slot, [], node)
      && content == FileAt(v.g, v.disk, own, slot)
    }

    ghost predicate Ready()
      reads v, node, heap
    {
      Valid() && heap.Valid()
    }

    /** The heap has room for the cluster that every read needs. */
    ghost predicate Buffered()
      reads heap
    {
      HasBlock(heap.blocks, v.g.ClusterBytes())
    }

    constructor (v: Volume, heap: Heap, node: Node, ghost own: Ownership, ghost slot: Slot)
      requires LiveFile(v.g, v.disk, own, slot) && Handle(v.g, v.disk, own, slot, [], node)
      ensures this.v == v && this.node == node && this.heap == heap
      ensures Valid() && content == FileAt(v.g, v.disk, own, slot)
    {
      this.v, this.heap, this.node := v, heap, node;
      this.own, this.slot := own, slot;
      this.content := FileAt(v.g, v.disk, own, slot);
    }

    method Read(offset: nat, size: nat, buffer: array<Byte>) returns (n: int)
      requires Ready() && offset < 0x1_0000_0000 && size <= buffer.Length && size < 0x8000_0000
      modifies buffer, heap
      ensures Ready() && heap.blocks == old(heap.blocks) && n <= size
      ensures n > 0 ==> offset + n <= |content| && buffer[..n] == content[offset..offset + n]
      ensures if Buffered() then n == Readable(|content|, offset, size) else n <= 0
    {
      n := ReadBuffered(v, heap, node, offset, size, buffer, own, slot);
    }
  }
}
