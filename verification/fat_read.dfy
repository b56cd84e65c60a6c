/** Reading a file: walking its chain and copying the wanted slice. */
module FatRead {
  import opened Collections
  import opened Bytes
  import opened FatLayout
  import opened FatTable
  import opened FatChain
  import opened FatData
  import opened VfsNode

  function Min(a: int, b: int): int { if a <= b then a else b }

  /** Addition of unsigned 32-bit words. */
  function Add32(a: int, b: int): int { (a + b) % 0x1_0000_0000 }

  lemma DivMod(x: nat, k: nat)
    requires 0 < k
    ensures 0 <= x % k < k && 0 <= x / k && x / k * k + x % k == x
  {
  }

  lemma {:induction false} SmallSet(s: set<int>, lo: int, hi: int)
    requires lo <= hi && forall x :: x in s ==> lo <= x < hi
    ensures |s| <= hi - lo
    decreases hi - lo
  {
    if lo < hi {
      SmallSet(s - {lo}, lo + 1, hi);
      assert s <= {lo} + (s - {lo});
    } else {
      assert s == {};
    }
  }

  /** No file is so long that an offset into its clusters could wrap. */
  lemma ContentFits32(g: Geometry, fat: seq<int>, first: int, ch: seq<int>)
    requires g.Valid() && |fat| == g.Entries() && Chain(fat, first, ch)
    ensures Clusters(g, ch) && |ch| <= g.Entries() - 2
    ensures Times(|ch|, g.ClusterBytes()) < 0x1_0000_0000
  {
    forall i | 0 <= i < |ch| ensures g.IsCluster(ch[i]) { assert LinkAt(fat, ch, i); }
    ChainDistinct(fat, first, ch);
    DistinctCount(ch);
    SmallSet(Elements(ch), 2, g.Entries());
    assert Times(|ch|, g.ClusterBytes()) <= Times(65278, g.ClusterBytes()) by {
      MulMono(|ch|, 65278, g.ClusterBytes());
    }
  }

  lemma ContentFits(g: Geometry, disk: seq<Sector>, first: int, ch: seq<int>)
    requires g.Fits(disk) && Chain(Fat(g, disk), first, ch)
    ensures Clusters(g, ch) && |Content(g, disk, ch)| == Times(|ch|, g.ClusterBytes()) < 0x1_0000_0000
  {
    ContentFits32(g, Fat(g, disk), first, ch);
  }

  lemma MulMono(a: int, b: int, k: int)
    requires a <= b && 0 <= k
    ensures a * k <= b * k
  {
    if a < b { MulOrder(a, b, k); }
  }

  lemma MulCancel(a: int, b: int, k: int)
    requires a * k < b * k && 0 <= k
    ensures a < b
  {
    if b <= a { MulMono(b, a, k); }
  }

  /** Follows `count` links, or stops early at the end of the chain. */
  method SkipClusters(v: Volume, first: int, count: nat, ghost ch: seq<int>) returns (cluster: int, inside: bool)
    requires v.Ready() && Chain(Fat(v.g, v.disk), first, ch)
    ensures inside <==> count <= |ch|
    ensures inside ==> Follows(cluster, ch, count)
  {
    cluster := first;
    ghost var fat := Fat(v.g, v.disk);
    for i := 0 to count
      invariant i <= |ch| && Follows(cluster, ch, i)
    {
      if i < |ch| { assert LinkAt(fat, ch, i); }
      if cluster < 2 || cluster >= EOF_LO {
        return cluster, false;
      }
      cluster := FatEntry(v, cluster);
    }
    inside := true;
  }

  method CopyBytes(src: array<Byte>, from: nat, dst: array<Byte>, at: nat, n: nat)
    requires src != dst && from + n <= src.Length && at + n <= dst.Length
    modifies dst
    ensures dst[..] == Splice(old(dst[..]), at, src[from..from + n])
  {
    hide Splice;
    SpliceNone(dst[..], at);
    assert src[from..from + 0] == [];
    for i := 0 to n
      invariant dst[..] == Splice(old(dst[..]), at, src[from..from + i])
    {
      SpliceByte(old(dst[..]), at, src[from..from + i], src[from + i]);
      assert src[from..from + i] + [src[from + i]] == src[from..from + (i + 1)];
      dst[at + i] := src[from + i];
    }
  }

  /** How many bytes a read at `offset` can deliver of `total`. */
  function Readable(total: int, offset: int, size: int): int {
    if offset >= total then 0 else Min(size, total - offset)
  }

  /** The bytes of a file: its clusters, cut at its size. */
  ghost function FileBytes(g: Geometry, disk: seq<Sector>, ch: seq<int>, size: int): (data: seq<Byte>)
    requires g.Fits(disk) && Clusters(g, ch) && 0 <= size
    ensures |data| == Min(size, Times(|ch|, g.ClusterBytes()))
  {
    Content(g, disk, ch)[..Min(size, |Content(g, disk, ch)|)]
  }

  /** n bytes from `offset` on. */
  function Part(data: seq<Byte>, offset: nat, n: nat): seq<Byte>
    requires n > 0 ==> offset + n <= |data|
  {
    if n == 0 then [] else data[offset..offset + n]
  }

  /** fat16_vfs_read delivers the slice of the file at `offset`, capped at its end and at the
      end of its clusters, and touches nothing else in the buffer. It gives up before it needs
      memory when the chain is more than a cluster too short. `memory` says whether kmalloc
      finds room. */
  method VfsRead(v: Volume, node: Node, offset: nat, size: nat, buf: array<Byte>, memory: bool, ghost ch: seq<int>)
    returns (n: int)
    requires v.Ready() && offset < 0x1_0000_0000 && size < 0x1_0000_0000
    requires size <= buf.Length && 0 <= node.size
    requires Chain(Fat(v.g, v.disk), node.inode, ch) && Clusters(v.g, ch)
    modifies buf
    ensures var data := FileBytes(v.g, v.disk, ch, node.size);
      var count := Readable(|data|, offset, size);
      if offset >= node.size || offset / v.g.ClusterBytes() > |ch| then n == 0 && buf[..] == old(buf[..])
      else if !memory then n == -1 && buf[..] == old(buf[..])
      else n == AsInt32(count) && buf[..] == Splice(old(buf[..]), 0, Part(data, offset, count))
  {
    hide Splice, Content, Chain, Geometry.Fits, Fat, Clusters;
    var fileSize := node.size;
    if offset >= fileSize {
      return 0;
    }
    var maxRead := fileSize - offset;
    var wanted := if size > maxRead then maxRead else size;

    var clusterBytes := v.g.sectorsPerCluster * 512;
    ClusterPositive(v.g, v.disk);
    var skipCount := offset / clusterBytes;
    var innerOff := offset % clusterBytes;
    DivMod(offset, clusterBytes);

    var cluster, inside := SkipClusters(v, node.inode, skipCount, ch);
    if !inside {
      return 0;
    }
    if !memory {
      return -1;
    }
    var cbuf := new Byte[clusterBytes];
    var bytesRead := ReadLoop(v, cluster, innerOff, wanted, buf, cbuf,
                              node.inode, ch, skipCount, offset);
    FileSlice(v.g, v.disk, ch, node.size, offset, wanted, size);
    return AsInt32(bytesRead);
  }

  lemma ClusterPositive(g: Geometry, disk: seq<Sector>)
    requires g.Fits(disk)
    ensures g.sectorsPerCluster * 512 == g.ClusterBytes() > 0
  {
  }

  lemma FileSlice(g: Geometry, disk: seq<Sector>, ch: seq<int>, size: nat, offset: nat, wanted: nat, asked: nat)
    requires g.Fits(disk) && Clusters(g, ch) && offset < size && wanted == Min(asked, size - offset)
    ensures var data, all := FileBytes(g, disk, ch, size), Content(g, disk, ch);
      Readable(|data|, offset, asked) == Readable(|all|, offset, wanted)
      && Part(data, offset, Readable(|data|, offset, asked)) == Part(all, offset, Readable(|all|, offset, wanted))
  {
  }

  /** Byte `pos` of the content is byte `start` of cluster `idx` of the chain. */
  ghost predicate AtCluster(ch: seq<int>, cluster: int, k: int, idx: nat, start: nat, pos: nat) {
    idx < |ch| && cluster == ch[idx] && start < k && Times(idx, k) + start == pos
  }

  method ReadLoop(v: Volume, from: int, innerOff: nat, size: nat, buf: array<Byte>, cbuf: array<Byte>,
                  ghost head: int, ghost ch: seq<int>, ghost skip: nat, ghost offset: nat)
    returns (bytesRead: nat)
    requires v.Ready() && Chain(Fat(v.g, v.disk), head, ch) && Clusters(v.g, ch)
    requires buf != cbuf && cbuf.Length == v.g.ClusterBytes() && size <= buf.Length && size < 0x1_0000_0000
    requires skip <= |ch| && Follows(from, ch, skip) && innerOff < v.g.ClusterBytes()
    requires Times(skip, v.g.ClusterBytes()) + innerOff == offset
    modifies buf, cbuf
    ensures bytesRead == Readable(|Content(v.g, v.disk, ch)|, offset, size)
    ensures buf[..] == Splice(old(buf[..]), 0, Part(Content(v.g, v.disk, ch), offset, bytesRead))
  {
    hide Splice, Content, AtCluster, Chain, Geometry.Fits, Fat, Clusters;
    ghost var idx := skip;
    ghost var data := Content(v.g, v.disk, ch);
    var cluster := from;
    var first := true;
    bytesRead := 0;
    ContentFits(v.g, v.disk, head, ch);
    FirstCluster(v.g, v.disk, head, ch, cluster, skip, innerOff, offset);
    SpliceNone(buf[..], 0);
    while bytesRead < size && cluster >= 2 && cluster < EOF_LO
      invariant bytesRead <= Readable(|data|, offset, size)
      invariant bytesRead < size ==> (2 <= cluster < EOF_LO <==> offset + bytesRead < |data|)
      invariant bytesRead < size && offset + bytesRead < |data| ==>
        AtCluster(ch, cluster, v.g.ClusterBytes(), idx, if first then innerOff else 0, offset + bytesRead)
      invariant buf[..] == Splice(old(buf[..]), 0, Part(data, offset, bytesRead))
      decreases size - bytesRead
    {
      var start := if first then innerOff else 0;
      ghost var done := bytesRead;
      bytesRead, cluster := ReadStep(v, cluster, start, bytesRead, size, buf, cbuf, head, ch, idx, offset);
      PartMore(data, offset, done, bytesRead);
      SpliceMore(old(buf[..]), 0, Part(data, offset, done), data[offset + done..offset + bytesRead]);
      idx := idx + 1;
      first := false;
    }
  }

  lemma PartMore(data: seq<Byte>, offset: nat, done: nat, more: nat)
    requires done < more && offset + more <= |data|
    ensures |Part(data, offset, done)| == done
    ensures Part(data, offset, done) + data[offset + done..offset + more] == Part(data, offset, more)
  {
  }

  /** Where the skipped links have led: to the cluster with byte `offset`, or to the end. */
  lemma FirstCluster(g: Geometry, disk: seq<Sector>, head: int, ch: seq<int>, cluster: int, idx: nat, start: nat,
                     pos: nat)
    requires g.Fits(disk) && Chain(Fat(g, disk), head, ch) && Clusters(g, ch) && start < g.ClusterBytes()
    requires idx <= |ch| && Follows(cluster, ch, idx) && Times(idx, g.ClusterBytes()) + start == pos
    ensures 2 <= cluster < EOF_LO <==> pos < |Content(g, disk, ch)|
    ensures pos < |Content(g, disk, ch)| ==> AtCluster(ch, cluster, g.ClusterBytes(), idx, start, pos)
  {
    hide Content;
    ContentFits(g, disk, head, ch);
    if idx < |ch| {
      assert LinkAt(Fat(g, disk), ch, idx);
      assert (idx + 1) * g.ClusterBytes() == idx * g.ClusterBytes() + g.ClusterBytes();
      MulMono(idx + 1, |ch|, g.ClusterBytes());
    }
  }

  /** One round of the read loop: one cluster read, its wanted part copied, one link followed. */
  method ReadStep(v: Volume, cluster: int, start: nat, done: nat, size: nat, buf: array<Byte>, cbuf: array<Byte>,
                  ghost head: int, ghost ch: seq<int>, ghost idx: nat, ghost offset: nat)
    returns (bytesRead: nat, next: int)
    requires v.Ready() && Chain(Fat(v.g, v.disk), head, ch) && Clusters(v.g, ch)
    requires buf != cbuf && cbuf.Length == v.g.ClusterBytes() && done < size <= buf.Length && size < 0x1_0000_0000
    requires AtCluster(ch, cluster, v.g.ClusterBytes(), idx, start, offset + done)
    modifies buf, cbuf
    ensures done < bytesRead <= size && offset + bytesRead <= |Content(v.g, v.disk, ch)|
    ensures bytesRead < size ==> (2 <= next < EOF_LO <==> offset + bytesRead < |Content(v.g, v.disk, ch)|)
    ensures bytesRead < size && offset + bytesRead < |Content(v.g, v.disk, ch)| ==>
      AtCluster(ch, next, v.g.ClusterBytes(), idx + 1, 0, offset + bytesRead)
    ensures buf[..] == Splice(old(buf[..]), done, Content(v.g, v.disk, ch)[offset + done..offset + bytesRead])
  {
    hide Splice, Content, ClusterData, AtCluster, Chain, Geometry.Fits, Fat, Clusters;
    ContentFits(v.g, v.disk, head, ch);
    ghost var k := v.g.ClusterBytes();
    var avail := v.g.ClusterBytes() - start;
    NextCluster(ch, cluster, k, idx, start, offset, done, size);
    var copy := if Add32(done, avail) > size then size - done else avail;
    ContentPart(v.g, v.disk, ch, cluster, idx, start, offset + done, copy);
    CopyFromCluster(v, cluster, cbuf, start, buf, done, copy);
    bytesRead := done + copy;
    NextLink(v.g, v.disk, head, ch, cluster, idx, start, offset + done);
    next := FatEntry(v, cluster);
  }

  /** The link out of a cluster of the chain leads to the one behind it. */
  lemma NextLink(g: Geometry, disk: seq<Sector>, head: int, ch: seq<int>, cluster: int, idx: nat, start: nat, pos: nat)
    requires g.Fits(disk) && Chain(Fat(g, disk), head, ch) && AtCluster(ch, cluster, g.ClusterBytes(), idx, start, pos)
    ensures 0 <= cluster < g.Entries() == |Fat(g, disk)|
    ensures 2 <= Fat(g, disk)[cluster] < EOF_LO <==> idx + 1 < |ch|
    ensures idx + 1 < |ch| ==> Fat(g, disk)[cluster] == ch[idx + 1]
  {
    assert LinkAt(Fat(g, disk), ch, idx);
    if idx + 1 < |ch| { assert LinkAt(Fat(g, disk), ch, idx + 1); }
  }

  method CopyFromCluster(v: Volume, cluster: int, cbuf: array<Byte>, start: nat, buf: array<Byte>, at: nat, n: nat)
    requires v.Ready() && v.g.IsCluster(cluster)
    requires buf != cbuf && cbuf.Length == v.g.ClusterBytes()
    requires start + n <= cbuf.Length && at + n <= buf.Length
    modifies buf, cbuf
    ensures buf[..] == Splice(old(buf[..]), at, ClusterData(v.g, v.disk, cluster)[start..start + n])
  {
    ReadCluster(v, cluster, cbuf);
    CopyBytes(cbuf, start, buf, at, n);
    assert cbuf[start..start + n] == cbuf[..][start..start + n];
  }

  /** The 32-bit sum does not wrap, and a round that does not finish the read ends exactly
      where the next cluster begins, if there is one, and at the end of the content if not. */
  lemma NextCluster(ch: seq<int>, cluster: int, k: nat, idx: nat, start: nat, offset: nat, done: nat, size: nat)
    requires AtCluster(ch, cluster, k, idx, start, offset + done)
    requires Times(|ch|, k) < 0x1_0000_0000 && done < size
    ensures start < k && Add32(done, k - start) == done + (k - start)
    ensures idx + 1 < |ch| <==> offset + done + (k - start) < Times(|ch|, k)
    ensures idx + 1 < |ch| ==> AtCluster(ch, ch[idx + 1], k, idx + 1, 0, offset + done + (k - start))
  {
    assert (idx + 1) * k == idx * k + k;
    MulMono(idx + 1, |ch|, k);
    if idx + 1 < |ch| { MulOrder(idx + 1, |ch|, k); }
  }

  lemma ContentPart(g: Geometry, disk: seq<Sector>, ch: seq<int>, cluster: int, idx: nat, start: nat, pos: nat, n: nat)
    requires g.Fits(disk) && Clusters(g, ch) && AtCluster(ch, cluster, g.ClusterBytes(), idx, start, pos)
    requires start + n <= g.ClusterBytes()
    ensures g.IsCluster(cluster) && pos + n <= |Content(g, disk, ch)|
    ensures ClusterData(g, disk, cluster)[start..start + n] == Content(g, disk, ch)[pos..pos + n]
  {
    ContentSlice(g, disk, ch, idx);
  }
}
