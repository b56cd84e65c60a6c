/** Writing a file: growing its chain, patching its clusters, updating its directory entry. */
module FatWrite {
  import opened Collections
  import opened Bytes
  import opened FatLayout
  import opened FatTable
  import opened FatChain
  import opened FatData
  import opened FatRead
  import opened FatEntryCodec
  import opened VfsNode

  /** The FAT changed only by taking free clusters `ext` for the chain `ch`. */
  ghost predicate Grown(fat0: seq<int>, fat1: seq<int>, ch: seq<int>, ext: seq<int>) {
    && |fat1| == |fat0|
    && (forall c :: c in ext ==> c in FreeSet(fat0))
    && (forall c :: 0 <= c < |fat0| && c !in ch && c !in ext ==> fat1[c] == fat0[c])
    && FreeSet(fat1) == FreeSet(fat0) - Elements(ext)
  }

  lemma GrownByOne(fat0: seq<int>, fat: seq<int>, first: int, ch: seq<int>, ext: seq<int>, c: int)
    requires Grown(fat0, fat, ch, ext) && Chain(fat, first, ch + ext) && ch + ext != []
    requires c in FreeSet(fat) && |fat| <= EOF_LO
    ensures var chain := ch + ext; var last := chain[|chain| - 1];
      2 <= last < |fat| && last != c &&
      var fat' := fat[c := 0xFFFF][last := c];
      && Grown(fat0, fat', ch, ext + [c])
      && chain + [c] == ch + (ext + [c]) && Chain(fat', first, ch + (ext + [c]))
  {
    var chain := ch + ext;
    var last := chain[|chain| - 1];
    ChainExtend(fat, first, chain, c);
    assert LinkAt(fat, chain, |chain| - 1);
    assert chain + [c] == ch + (ext + [c]);
    var fat' := fat[c := 0xFFFF][last := c];
    assert last in ch || last in ext;
    assert FreeSet(fat') == FreeSet(fat) - {c};
    assert Elements(ext + [c]) == Elements(ext) + {c};
  }

  /** Walks to cluster `idx` of the chain, extending the chain on the way when it is too
      short; gives up only when no cluster is free. */
  method ClusterForWrite(v: Volume, first: int, idx: nat, ghost fat0: seq<int>, ghost ch: seq<int>,
                         ghost ext0: seq<int>)
    returns (ok: bool, cluster: int, ghost ext: seq<int>)
    requires v.Ready() && Chain(Fat(v.g, v.disk), first, ch + ext0) && ch + ext0 != []
    requires Grown(fat0, Fat(v.g, v.disk), ch, ext0)
    modifies v
    ensures v.Ready() && SameOutsideFat(v.g, old(v.disk), v.disk)
    ensures CopiesAgree(v.g, old(v.disk)) ==> CopiesAgree(v.g, v.disk)
    ensures Chain(Fat(v.g, v.disk), first, ch + ext) && Grown(fat0, Fat(v.g, v.disk), ch, ext)
    ensures ext0 <= ext
    ensures ok ==> idx < |ch + ext| && cluster == (ch + ext)[idx]
    ensures !ok ==> FreeSet(Fat(v.g, v.disk)) == {} && |ch + ext| <= idx
    ensures |ch + ext| == |ch + ext0| || |ch + ext| <= idx + 1
  {
    ext := ext0;
    cluster := first;
    assert LinkAt(Fat(v.g, v.disk), ch + ext0, 0);
    for i := 0 to idx
      invariant v.Ready() && SameOutsideFat(v.g, old(v.disk), v.disk)
      invariant CopiesAgree(v.g, old(v.disk)) ==> CopiesAgree(v.g, v.disk)
      invariant Chain(Fat(v.g, v.disk), first, ch + ext) && Grown(fat0, Fat(v.g, v.disk), ch, ext)
      invariant ext0 <= ext && i < |ch + ext| && cluster == (ch + ext)[i]
      invariant |ch + ext| == |ch + ext0| || |ch + ext| <= i + 1
    {
      var failed;
      failed, cluster, ext := NextForWrite(v, first, cluster, i, fat0, ch, ext);
      if failed { return false, cluster, ext; }
    }
    ok := true;
  }

  method NextForWrite(v: Volume, first: int, cluster: int, ghost i: nat,
                      ghost fat0: seq<int>, ghost ch: seq<int>, ghost ext0: seq<int>)
    returns (failed: bool, next: int, ghost ext: seq<int>)
    requires v.Ready() && Chain(Fat(v.g, v.disk), first, ch + ext0)
    requires Grown(fat0, Fat(v.g, v.disk), ch, ext0)
    requires i < |ch + ext0| && cluster == (ch + ext0)[i]
    modifies v
    ensures v.Ready() && SameOutsideFat(v.g, old(v.disk), v.disk)
    ensures CopiesAgree(v.g, old(v.disk)) ==> CopiesAgree(v.g, v.disk)
    ensures Chain(Fat(v.g, v.disk), first, ch + ext) && Grown(fat0, Fat(v.g, v.disk), ch, ext)
    ensures ext0 <= ext
    ensures failed ==> ext == ext0 && FreeSet(Fat(v.g, v.disk)) == {} && |ch + ext| == i + 1
    ensures !failed ==> i + 1 < |ch + ext| && next == (ch + ext)[i + 1]
    ensures |ch + ext| == |ch + ext0| || |ch + ext| == i + 2
  {
    ext := ext0;
    assert LinkAt(Fat(v.g, v.disk), ch + ext, i);
    next := FatEntry(v, cluster);
    if i + 1 < |ch + ext| { assert LinkAt(Fat(v.g, v.disk), ch + ext, i + 1); }
    if next < 2 || next >= EOF_LO {
      ghost var fat := Fat(v.g, v.disk);
      var nc := FatAllocCluster(v);
      if nc == 0 { return true, cluster, ext; }
      GrownByOne(fat0, fat, first, ch, ext, nc);
      FatSetEntry(v, cluster, nc);
      ext := ext + [nc];
      next := nc;
    }
    failed := false;
  }

  /** Nothing differs outside the FATs and the clusters of `ch`. */
  ghost predicate SameElsewhere(g: Geometry, d0: seq<Sector>, d1: seq<Sector>, ch: seq<int>) {
    && |d1| == |d0|
    && forall lba :: 0 <= lba < |d0| && !(g.FatLba() <= lba < g.RootLba()) && !OnChain(g, lba, ch)
         ==> d1[lba] == d0[lba]
  }

  ghost predicate OnChain(g: Geometry, lba: int, ch: seq<int>) {
    exists i :: 0 <= i < |ch| && g.InCluster(lba, ch[i])
  }

  lemma NestedSplice(s: seq<Byte>, at: nat, k: nat, inner: nat, pos: nat, t: seq<Byte>)
    requires at + k <= |s| && inner + |t| <= k && pos == at + inner
    ensures Splice(s, at, Splice(s[at..at + k], inner, t)) == Splice(s, pos, t)
  {
    hide Splice;
    var part := s[at..at + k];
    var l, r := Splice(s, at, Splice(part, inner, t)), Splice(s, pos, t);
    forall i | 0 <= i < |s| ensures l[i] == r[i] {
      SpliceIndex(s, at, Splice(part, inner, t), i);
      SpliceIndex(s, pos, t, i);
      if at <= i < at + k { SpliceIndex(part, inner, t, i - at); }
    }
  }

  lemma SpliceThrough(s': seq<Byte>, s: seq<Byte>, at: nat, k: nat, part: seq<Byte>, part': seq<Byte>,
                      inner: nat, pos: nat, t: seq<Byte>)
    requires at + k <= |s| && part == s[at..at + k] && part' == Splice(part, inner, t)
    requires s' == Splice(s, at, part') && inner + |t| <= k && pos == at + inner
    ensures s' == Splice(s, pos, t)
  {
    NestedSplice(s, at, k, inner, pos, t);
  }

  /** Reads the cluster, patches the new bytes in and writes it back. */
  method PatchCluster(v: Volume, cluster: int, cbuf: array<Byte>, inner: nat, buf: array<Byte>, from: nat, copy: nat)
    requires v.Ready() && v.g.IsCluster(cluster)
    requires buf != cbuf && cbuf.Length == v.g.ClusterBytes()
    requires inner + copy <= cbuf.Length && from + copy <= buf.Length
    modifies v, cbuf
    ensures v.Ready() && |v.disk| == |old(v.disk)|
    ensures ClusterData(v.g, v.disk, cluster) ==
      Splice(ClusterData(v.g, old(v.disk), cluster), inner, buf[from..from + copy])
    ensures forall lba :: 0 <= lba < |v.disk| && !v.g.InCluster(lba, cluster) ==> v.disk[lba] == old(v.disk)[lba]
  {
    ReadCluster(v, cluster, cbuf);
    CopyBytes(buf, from, cbuf, inner, copy);
    WriteCluster(v, cluster, cbuf);
  }

  lemma PatchKeepsCluster(g: Geometry, d0: seq<Sector>, d1: seq<Sector>, cluster: int, other: int)
    requires g.Valid() && |d1| == |d0| && other != cluster
    requires forall lba :: 0 <= lba < |d1| && !g.InCluster(lba, cluster) ==> d1[lba] == d0[lba]
    ensures SameCluster(g, d0, d1, other)
  {
    forall lba | 0 <= lba < |d0| && g.InCluster(lba, other) ensures d1[lba] == d0[lba] {
      if g.InCluster(lba, cluster) { ClusterInjective(g, lba, cluster, other); }
    }
  }

  lemma PatchUpdates(g: Geometry, d0: seq<Sector>, d1: seq<Sector>, first: int, ch: seq<int>, idx: nat)
    requires g.Fits(d0) && |d1| == |d0| && Chain(Fat(g, d0), first, ch) && Clusters(g, ch) && idx < |ch|
    requires forall lba :: 0 <= lba < |d1| && !g.InCluster(lba, ch[idx]) ==> d1[lba] == d0[lba]
    ensures Content(g, d1, ch) == Splice(Content(g, d0, ch), Times(idx, g.ClusterBytes()), ClusterData(g, d1, ch[idx]))
  {
    ChainDistinct(Fat(g, d0), first, ch);
    forall j | 0 <= j < |ch| && j != idx ensures SameCluster(g, d0, d1, ch[j]) {
      PatchKeepsCluster(g, d0, d1, ch[idx], ch[j]);
    }
    ContentUpdate(g, d0, d1, ch, idx);
  }

  /** Patching one cluster of a chain splices the chain's content and nothing else. */
  lemma PatchSplices(g: Geometry, d0: seq<Sector>, d1: seq<Sector>, first: int, ch: seq<int>,
                     cluster: int, idx: nat, inner: nat, pos: nat, chunk: seq<Byte>)
    requires g.Fits(d0) && |d1| == |d0| && Chain(Fat(g, d0), first, ch) && Clusters(g, ch)
    requires AtCluster(ch, cluster, g.ClusterBytes(), idx, inner, pos) && inner + |chunk| <= g.ClusterBytes()
    requires ClusterData(g, d1, cluster) == Splice(ClusterData(g, d0, cluster), inner, chunk)
    requires forall lba :: 0 <= lba < |d1| && !g.InCluster(lba, cluster) ==> d1[lba] == d0[lba]
    ensures Content(g, d1, ch) == Splice(Content(g, d0, ch), pos, chunk)
  {
    PatchUpdates(g, d0, d1, first, ch, idx);
    ContentSlice(g, d0, ch, idx);
    SpliceThrough(Content(g, d1, ch), Content(g, d0, ch), Times(idx, g.ClusterBytes()), g.ClusterBytes(),
                  ClusterData(g, d0, cluster), ClusterData(g, d1, cluster), inner, pos, chunk);
  }

  /** Cluster sectors lie behind the FATs, so patching one leaves the table alone. */
  lemma PatchKeepsFat(g: Geometry, d0: seq<Sector>, d1: seq<Sector>, cluster: int)
    requires g.Fits(d0) && |d1| == |d0| && g.IsCluster(cluster)
    requires forall lba :: 0 <= lba < |d1| && !g.InCluster(lba, cluster) ==> d1[lba] == d0[lba]
    ensures Fat(g, d1) == Fat(g, d0)
    ensures CopiesAgree(g, d0) ==> CopiesAgree(g, d1)
  {
    FatRegion(g, d0);
    ClusterOnDisk(g, d0, cluster);
    SameFatSectors(g, d0, d1);
  }

  lemma SameFatSectors(g: Geometry, d0: seq<Sector>, d1: seq<Sector>)
    requires g.Fits(d0) && |d1| == |d0|
    requires forall lba :: g.FatLba() <= lba < g.RootLba() && 0 <= lba < |d0| ==> d1[lba] == d0[lba]
    ensures Fat(g, d1) == Fat(g, d0)
    ensures CopiesAgree(g, d0) ==> CopiesAgree(g, d1)
  {
    FatRegion(g, d0);
    forall c | 0 <= c < g.Entries() ensures FatAt(g, d1, 0, c) == FatAt(g, d0, 0, c) {}
    if g.fatCount > 1 {
      forall c | 0 <= c < g.Entries() ensures FatAt(g, d1, 1, c) == FatAt(g, d0, 1, c) {}
      assert Table(g, d1, 1) == Table(g, d0, 1);
    }
  }

  /** `data` has been written at `offset` into the chain `ch`, grown by `ext`, and nothing else changed. */
  ghost predicate Written(g: Geometry, d0: seq<Sector>, d: seq<Sector>, first: int, fat0: seq<int>,
                          ch: seq<int>, ext: seq<int>, offset: nat, data: seq<Byte>)
    requires g.Fits(d0)
  {
    && |d| == |d0| && Clusters(g, ch + ext)
    && Chain(Fat(g, d), first, ch + ext) && Grown(fat0, Fat(g, d), ch, ext)
    && SameElsewhere(g, d0, d, ch + ext)
    && (data != [] ==> offset + |data| <= |Content(g, d0, ch + ext)|)
    && Content(g, d, ch + ext) == Splice(Content(g, d0, ch + ext), offset, data)
    && (CopiesAgree(g, d0) ==> CopiesAgree(g, d))
  }

  lemma {:induction false} ContentConcat(g: Geometry, disk: seq<Sector>, a: seq<int>, b: seq<int>)
    requires g.Fits(disk) && Clusters(g, a) && Clusters(g, b)
    ensures Clusters(g, a + b)
    ensures Content(g, disk, a + b) == Content(g, disk, a) + Content(g, disk, b)
    decreases |b|
  {
    if b == [] {
      assert a + b == a;
    } else {
      var n := |b| - 1;
      assert (a + b)[..|a + b| - 1] == a + b[..n];
      ContentConcat(g, disk, a, b[..n]);
    }
  }

  /** Clusters that are not on the chain keep their data. */
  lemma OffChainSame(g: Geometry, d0: seq<Sector>, d1: seq<Sector>, ch: seq<int>, more: seq<int>)
    requires g.Fits(d0) && SameElsewhere(g, d0, d1, ch) && Clusters(g, more)
    requires forall c :: c in more ==> c !in ch
    ensures Content(g, d1, more) == Content(g, d0, more)
  {
    forall i | 0 <= i < |more| ensures SameCluster(g, d0, d1, more[i]) {
      OffChainCluster(g, d0, d1, ch, more[i]);
    }
    ContentFrame(g, d0, d1, more);
  }

  lemma OffChainCluster(g: Geometry, d0: seq<Sector>, d1: seq<Sector>, ch: seq<int>, c: int)
    requires g.Fits(d0) && SameElsewhere(g, d0, d1, ch) && c !in ch
    ensures SameCluster(g, d0, d1, c)
  {
    forall lba | 0 <= lba < |d0| && g.InCluster(lba, c) ensures d1[lba] == d0[lba] {
      ClusterOnDisk(g, d0, c);
      if OnChain(g, lba, ch) {
        var i :| 0 <= i < |ch| && g.InCluster(lba, ch[i]);
        ClusterInjective(g, lba, c, ch[i]);
      }
    }
  }

  lemma SpliceAppend(a: seq<Byte>, b: seq<Byte>, off: nat, t: seq<Byte>)
    requires t != [] ==> off + |t| <= |a|
    ensures Splice(a + b, off, t) == Splice(a, off, t) + b
  {
    if t != [] { SpliceLeft(a, b, off, t); }
  }

  lemma ChainClusters(g: Geometry, fat: seq<int>, first: int, ch: seq<int>)
    requires |fat| == g.Entries() && Chain(fat, first, ch)
    ensures Clusters(g, ch)
  {
    forall i | 0 <= i < |ch| ensures g.IsCluster(ch[i]) { assert LinkAt(fat, ch, i); }
  }

  /** Growing the chain keeps what has been written so far. */
  lemma WrittenGrows(g: Geometry, d0: seq<Sector>, d: seq<Sector>, d': seq<Sector>, first: int, fat0: seq<int>,
                     ch: seq<int>, ext: seq<int>, ext': seq<int>, offset: nat, data: seq<Byte>)
    requires g.Fits(d0) && Written(g, d0, d, first, fat0, ch, ext, offset, data) && |fat0| == g.Entries()
    requires SameOutsideFat(g, d, d') && ext <= ext'
    requires Chain(Fat(g, d'), first, ch + ext') && Grown(fat0, Fat(g, d'), ch, ext')
    requires CopiesAgree(g, d) ==> CopiesAgree(g, d')
    ensures Written(g, d0, d', first, fat0, ch, ext', offset, data)
  {
    ChainClusters(g, Fat(g, d'), first, ch + ext');
    var more := ext'[|ext|..];
    assert ch + ext' == (ch + ext) + more;
    assert forall i :: 0 <= i < |more| ==> more[i] == (ch + ext')[|ch + ext| + i];
    GrownContent(g, d0, d, d', first, ch + ext, more, offset, data);
  }

  lemma GrownContent(g: Geometry, d0: seq<Sector>, d: seq<Sector>, d': seq<Sector>, first: int,
                     chain: seq<int>, more: seq<int>, offset: nat, data: seq<Byte>)
    requires g.Fits(d0) && SameElsewhere(g, d0, d, chain) && SameOutsideFat(g, d, d')
    requires Chain(Fat(g, d'), first, chain + more) && Clusters(g, chain) && Clusters(g, more)
    requires data != [] ==> offset + |data| <= |Content(g, d0, chain)|
    requires Content(g, d, chain) == Splice(Content(g, d0, chain), offset, data)
    ensures SameElsewhere(g, d0, d', chain + more) && Clusters(g, chain + more)
    ensures Content(g, d', chain + more) == Splice(Content(g, d0, chain + more), offset, data)
    ensures data != [] ==> offset + |data| <= |Content(g, d0, chain + more)|
  {
    ContentConcat(g, d0, chain, more);
    ContentConcat(g, d, chain, more);
    ContentOutsideFat(g, d, d', chain + more);
    ChainDistinct(Fat(g, d'), first, chain + more);
    DistinctParts(chain, more);
    OffChainSame(g, d0, d, chain, more);
    SpliceAppend(Content(g, d0, chain), Content(g, d0, more), offset, data);
    ElsewhereGrows(g, d0, d, d', chain, more);
  }

  lemma OnChainMore(g: Geometry, lba: int, chain: seq<int>, more: seq<int>)
    ensures OnChain(g, lba, chain) ==> OnChain(g, lba, chain + more)
  {
    if OnChain(g, lba, chain) {
      var i :| 0 <= i < |chain| && g.InCluster(lba, chain[i]);
      assert (chain + more)[i] == chain[i];
    }
  }

  lemma ElsewhereGrows(g: Geometry, d0: seq<Sector>, d: seq<Sector>, d': seq<Sector>, chain: seq<int>, more: seq<int>)
    requires SameElsewhere(g, d0, d, chain) && SameOutsideFat(g, d, d')
    ensures SameElsewhere(g, d0, d', chain + more)
  {
    forall lba | 0 <= lba < |d0| && !(g.FatLba() <= lba < g.RootLba()) && !OnChain(g, lba, chain + more)
      ensures d'[lba] == d0[lba]
    {
      OnChainMore(g, lba, chain, more);
    }
  }

  /** Patching the next chunk into its cluster extends what has been written by that chunk. */
  lemma WrittenPatch(g: Geometry, d0: seq<Sector>, d: seq<Sector>, d': seq<Sector>, first: int, fat0: seq<int>,
                     ch: seq<int>, ext: seq<int>, offset: nat, data: seq<Byte>, chunk: seq<Byte>,
                     cluster: int, idx: nat, inner: nat)
    requires g.Fits(d0) && Written(g, d0, d, first, fat0, ch, ext, offset, data) && |d'| == |d|
    requires AtCluster(ch + ext, cluster, g.ClusterBytes(), idx, inner, offset + |data|)
    requires inner + |chunk| <= g.ClusterBytes()
    requires ClusterData(g, d', cluster) == Splice(ClusterData(g, d, cluster), inner, chunk)
    requires forall lba :: 0 <= lba < |d'| && !g.InCluster(lba, cluster) ==> d'[lba] == d[lba]
    ensures Written(g, d0, d', first, fat0, ch, ext, offset, data + chunk)
  {
    var chain := ch + ext;
    PatchKeepsFat(g, d, d', cluster);
    PatchSplices(g, d, d', first, chain, cluster, idx, inner, offset + |data|, chunk);
    PatchInside(g, d0, chain, cluster, idx, inner, offset + |data|, |chunk|);
    SpliceMore(Content(g, d0, chain), offset, data, chunk);
    ElsewherePatched(g, d0, d, d', chain, cluster, idx);
  }

  lemma PatchInside(g: Geometry, d0: seq<Sector>, chain: seq<int>, cluster: int, idx: nat, inner: nat, pos: nat, n: nat)
    requires g.Fits(d0) && Clusters(g, chain)
    requires AtCluster(chain, cluster, g.ClusterBytes(), idx, inner, pos) && inner + n <= g.ClusterBytes()
    ensures pos + n <= |Content(g, d0, chain)|
  {
    ContentSlice(g, d0, chain, idx);
  }

  lemma ElsewherePatched(g: Geometry, d0: seq<Sector>, d: seq<Sector>, d': seq<Sector>, chain: seq<int>,
                         cluster: int, idx: nat)
    requires SameElsewhere(g, d0, d, chain) && idx < |chain| && chain[idx] == cluster && |d'| == |d|
    requires forall lba :: 0 <= lba < |d'| && !g.InCluster(lba, cluster) ==> d'[lba] == d[lba]
    ensures SameElsewhere(g, d0, d', chain)
  {
    forall lba | 0 <= lba < |d0| && !(g.FatLba() <= lba < g.RootLba()) && !OnChain(g, lba, chain)
      ensures d'[lba] == d0[lba]
    {
      assert !g.InCluster(lba, chain[idx]);
    }
  }

  /** The write loop: chunk after chunk until everything is written or the disk is full. */
  method WriteLoop(v: Volume, first: int, offset: nat, size: nat, buf: array<Byte>, cbuf: array<Byte>,
                   ghost d0: seq<Sector>, ghost fat0: seq<int>, ghost ch: seq<int>, ghost ext0: seq<int>)
    returns (bytesWritten: nat, ghost ext: seq<int>)
    requires v.g.Fits(d0) && |fat0| == v.g.Entries() && ch + ext0 != []
    requires Written(v.g, d0, v.disk, first, fat0, ch, ext0, offset, [])
    requires buf != cbuf && cbuf.Length == v.g.ClusterBytes() && size <= buf.Length
    requires offset < 0x1_0000_0000
    modifies v, cbuf
    ensures bytesWritten <= size && ext0 <= ext
    ensures Written(v.g, d0, v.disk, first, fat0, ch, ext, offset, buf[..bytesWritten])
    ensures bytesWritten < size ==> FreeSet(Fat(v.g, v.disk)) == {}
  {
    bytesWritten, ext := 0, ext0;
    var ok := true;
    while bytesWritten < size && ok
      invariant bytesWritten <= size && ext0 <= ext
      invariant Written(v.g, d0, v.disk, first, fat0, ch, ext, offset, buf[..bytesWritten])
      invariant !ok ==> FreeSet(Fat(v.g, v.disk)) == {}
      decreases size - bytesWritten, ok
    {
      ok, bytesWritten, ext := WriteStep(v, first, offset, size, buf, cbuf, bytesWritten, d0, fat0, ch, ext);
    }
  }

  method WriteStep(v: Volume, first: int, offset: nat, size: nat, buf: array<Byte>, cbuf: array<Byte>, done: nat,
                   ghost d0: seq<Sector>, ghost fat0: seq<int>, ghost ch: seq<int>, ghost ext0: seq<int>)
    returns (ok: bool, bytesWritten: nat, ghost ext: seq<int>)
    requires v.g.Fits(d0) && |fat0| == v.g.Entries() && ch + ext0 != []
    requires buf != cbuf && cbuf.Length == v.g.ClusterBytes() && done < size <= buf.Length
    requires Written(v.g, d0, v.disk, first, fat0, ch, ext0, offset, buf[..done])
    requires offset < 0x1_0000_0000
    modifies v, cbuf
    ensures ext0 <= ext
    ensures if ok then done < bytesWritten <= size else bytesWritten == done
    ensures Written(v.g, d0, v.disk, first, fat0, ch, ext, offset, buf[..bytesWritten])
    ensures !ok ==> FreeSet(Fat(v.g, v.disk)) == {}
  {
    hide Content, Splice, SameElsewhere, Chain, Grown, Clusters, Fat;
    ghost var k := v.g.ClusterBytes();
    ghost var before := v.disk;
    assert done > 0 ==> buf[..done] != [];
    NoWrap(v.g, d0, v.disk, first, fat0, ch, ext0, offset, buf[..done]);
    var curOff := Add32(offset, done);
    var clusterIdx := curOff / v.g.ClusterBytes();
    var innerOff := curOff % v.g.ClusterBytes();
    DivMod(curOff, v.g.ClusterBytes());
    var cluster;
    ok, cluster, ext := ClusterForWrite(v, first, clusterIdx, fat0, ch, ext0);
    WrittenGrows(v.g, d0, before, v.disk, first, fat0, ch, ext0, ext, offset, buf[..done]);
    bytesWritten := done;
    if ok {
      var avail := v.g.ClusterBytes() - innerOff;
      var copy := size - done;
      if copy > avail { copy := avail; }
      assert AtCluster(ch + ext, cluster, k, clusterIdx, innerOff, offset + done);
      PatchChunk(v, first, offset, buf, cbuf, done, copy, cluster, innerOff, clusterIdx, d0, fat0, ch, ext);
      bytesWritten := done + copy;
    }
  }

  method PatchChunk(v: Volume, first: int, offset: nat, buf: array<Byte>, cbuf: array<Byte>, done: nat, copy: nat,
                    cluster: int, innerOff: nat, ghost idx: nat,
                    ghost d0: seq<Sector>, ghost fat0: seq<int>, ghost ch: seq<int>, ghost ext: seq<int>)
    requires v.g.Fits(d0) && buf != cbuf && cbuf.Length == v.g.ClusterBytes() && done + copy <= buf.Length
    requires Written(v.g, d0, v.disk, first, fat0, ch, ext, offset, buf[..done])
    requires AtCluster(ch + ext, cluster, v.g.ClusterBytes(), idx, innerOff, offset + done)
    requires innerOff + copy <= v.g.ClusterBytes()
    modifies v, cbuf
    ensures Written(v.g, d0, v.disk, first, fat0, ch, ext, offset, buf[..done + copy])
  {
    ghost var before := v.disk;
    PatchCluster(v, cluster, cbuf, innerOff, buf, done, copy);
    WrittenPatch(v.g, d0, before, v.disk, first, fat0, ch, ext, offset, buf[..done], buf[done..done + copy],
                 cluster, idx, innerOff);
    assert buf[..done] + buf[done..done + copy] == buf[..done + copy];
  }

  /** The running 32-bit offset never wraps: what is written lies on a chain that fits. */
  lemma NoWrap(g: Geometry, d0: seq<Sector>, d: seq<Sector>, first: int, fat0: seq<int>,
               ch: seq<int>, ext: seq<int>, offset: nat, data: seq<Byte>)
    requires g.Fits(d0) && Written(g, d0, d, first, fat0, ch, ext, offset, data) && offset < 0x1_0000_0000
    ensures Add32(offset, |data|) == offset + |data|
  {
    ContentFits32(g, Fat(g, d), first, ch + ext);
  }

  /** The directory entry's sector is outside the chain and will not be handed out as free. */
  ghost predicate EntrySafe(g: Geometry, fat0: seq<int>, ch: seq<int>, dirLba: int) {
    forall c :: g.InCluster(dirLba, c) ==> c !in ch && c !in FreeSet(fat0)
  }

  /** The finished write: the chain `ch` grown by `ext` from free clusters, `data` spliced in
      at `offset`, the entry's location updated, and nothing else changed. */
  ghost predicate Stored(g: Geometry, d0: seq<Sector>, d: seq<Sector>, ch: seq<int>, ext: seq<int>,
                         offset: nat, data: seq<Byte>, dirLba: int, dirIndex: nat, first: int, size: int)
    requires g.Fits(d0) && g.RootLba() <= dirLba < |d0| && dirIndex < 16
    requires 0 <= first < 0x1_0000 && 0 <= size < 0x1_0000_0000
  {
    && |d| == |d0| && Clusters(g, ch + ext)
    && Chain(Fat(g, d), first, ch + ext) && Grown(Fat(g, d0), Fat(g, d), ch, ext)
    && (data != [] ==> offset + |data| <= |Content(g, d0, ch + ext)|)
    && Content(g, d, ch + ext) == Splice(Content(g, d0, ch + ext), offset, data)
    && d[dirLba] == PutLocation(d0[dirLba], dirIndex, first, size)
    && (forall lba | 0 <= lba < |d0| && !(g.FatLba() <= lba < g.RootLba()) && lba != dirLba
                     && !OnChain(g, lba, ch + ext) :: d[lba] == d0[lba])
    && (CopiesAgree(g, d0) ==> CopiesAgree(g, d))
  }

  lemma EntryOffChain(g: Geometry, fat0: seq<int>, fat: seq<int>, ch: seq<int>, ext: seq<int>, dirLba: int)
    requires EntrySafe(g, fat0, ch, dirLba) && Grown(fat0, fat, ch, ext)
    ensures !OnChain(g, dirLba, ch + ext)
  {
    forall i | 0 <= i < |ch + ext| ensures !g.InCluster(dirLba, (ch + ext)[i]) {
      if i >= |ch| { assert (ch + ext)[i] == ext[i - |ch|]; }
    }
  }

  lemma EntryStored(g: Geometry, d0: seq<Sector>, d: seq<Sector>, ch: seq<int>, ext: seq<int>,
                    offset: nat, data: seq<Byte>, dirLba: int, dirIndex: nat, first: int, size: int)
    requires g.Fits(d0) && g.RootLba() <= dirLba < |d0| && dirIndex < 16
    requires 0 <= first < 0x1_0000 && 0 <= size < 0x1_0000_0000
    requires Written(g, d0, d, first, Fat(g, d0), ch, ext, offset, data)
    requires EntrySafe(g, Fat(g, d0), ch, dirLba)
    ensures Stored(g, d0, d[dirLba := PutLocation(d[dirLba], dirIndex, first, size)], ch, ext,
                   offset, data, dirLba, dirIndex, first, size)
  {
    var d' := d[dirLba := PutLocation(d[dirLba], dirIndex, first, size)];
    FatRegion(g, d0);
    EntryOffChain(g, Fat(g, d0), Fat(g, d), ch, ext, dirLba);
    SameFatSectors(g, d, d');
    forall i | 0 <= i < |ch + ext| ensures SameCluster(g, d, d', (ch + ext)[i]) {
      assert !g.InCluster(dirLba, (ch + ext)[i]);
    }
    ContentFrame(g, d, d', ch + ext);
  }

  function Max(a: int, b: int): int { if a >= b then a else b }

  /** fat16_vfs_write. `memory` says whether kmalloc finds room for the cluster buffer. */
  method VfsWrite(v: Volume, node: Node, offset: nat, size: nat, buf: array<Byte>, memory: bool, ghost ch: seq<int>)
    returns (n: int, ghost written: nat, ghost ext: seq<int>)
    requires v.Ready() && offset < 0x1_0000_0000 && size < 0x1_0000_0000 && size <= buf.Length
    requires Chain(Fat(v.g, v.disk), node.inode, ch) && (ch == [] ==> 0 <= node.inode < 2)
    requires 0 <= node.size < 0x1_0000_0000
    requires v.g.RootLba() <= node.dirLba < |v.disk| && 0 <= node.dirIndex < 16
    requires EntrySafe(v.g, Fat(v.g, v.disk), ch, node.dirLba)
    modifies v, node
    ensures v.Ready() && node.dirLba == old(node.dirLba) && node.dirIndex == old(node.dirIndex)
    ensures size == 0 || (ch == [] && FreeSet(Fat(v.g, old(v.disk))) == {}) ==>
      n == (if size == 0 then 0 else -1) && v.disk == old(v.disk)
      && node.inode == old(node.inode) && node.size == old(node.size)
    ensures size > 0 && !memory && ch != [] ==>
      n == -1 && node.inode == old(node.inode) && node.size == old(node.size) && v.disk == old(v.disk)
    ensures size > 0 && !memory && ch == [] && FreeSet(Fat(v.g, old(v.disk))) != {} ==>
      n == -1 && node.size == old(node.size)
      && node.inode in FreeSet(Fat(v.g, old(v.disk)))
      && SameOutsideFat(v.g, old(v.disk), v.disk) && (CopiesAgree(v.g, old(v.disk)) ==> CopiesAgree(v.g, v.disk))
      && Fat(v.g, v.disk) == Fat(v.g, old(v.disk))[node.inode := 0xFFFF]
    ensures size > 0 && memory && (ch != [] || FreeSet(Fat(v.g, old(v.disk))) != {}) ==>
      n == AsInt32(written) && written <= size
      && node.size == Max(old(node.size), offset + written) < 0x1_0000_0000 && 0 <= node.inode < 0x1_0000
      && ch + ext != [] && (ch != [] ==> node.inode == old(node.inode))
      && Stored(v.g, old(v.disk), v.disk, ch, ext, offset, buf[..written],
                node.dirLba, node.dirIndex, node.inode, node.size)
      && (written < size ==> FreeSet(Fat(v.g, v.disk)) == {})
  {
    hide Stored, Written, EntrySafe, Content, Splice, CopiesAgree, Grown, SameElsewhere, Chain;
    n, written, ext := 0, 0, [];
    if size == 0 { return; }
    ghost var d0 := v.disk;
    var started;
    started, ext := StartWrite(v, node, offset, ch);
    if !started {
      return -1, 0, [];
    }
    if !memory {
      return -1, 0, ext;
    }
    var cbuf := new Byte[v.g.ClusterBytes()];
    var bytesWritten;
    bytesWritten, ext := WriteLoop(v, node.inode, offset, size, buf, cbuf, d0, Fat(v.g, d0), ch, ext);
    written := bytesWritten;
    FinishWrite(v, node, offset, bytesWritten, d0, ch, ext, buf[..written]);
    n := AsInt32(bytesWritten);
  }

  /** An empty file gets its first cluster. */
  method StartWrite(v: Volume, node: Node, ghost offset: nat, ghost ch: seq<int>) returns (started: bool,
                    ghost ext: seq<int>)
    requires v.Ready() && Chain(Fat(v.g, v.disk), node.inode, ch) && (ch == [] ==> 0 <= node.inode < 2)
    modifies v, node`inode
    ensures v.Ready() && SameOutsideFat(v.g, old(v.disk), v.disk)
    ensures CopiesAgree(v.g, old(v.disk)) ==> CopiesAgree(v.g, v.disk)
    ensures started <==> ch != [] || FreeSet(Fat(v.g, old(v.disk))) != {}
    ensures !started || ch != [] ==> v.disk == old(v.disk) && node.inode == old(node.inode)
    ensures started && ch == [] ==>
      node.inode in FreeSet(Fat(v.g, old(v.disk)))
      && Fat(v.g, v.disk) == Fat(v.g, old(v.disk))[node.inode := 0xFFFF]
    ensures started ==>
      ch + ext != [] && |ext| == (if ch == [] then 1 else 0) && 0 <= node.inode < 0x1_0000
      && Written(v.g, old(v.disk), v.disk, node.inode, Fat(v.g, old(v.disk)), ch, ext, offset, [])
  {
    ghost var d0, fat0 := v.disk, Fat(v.g, v.disk);
    ext := [];
    assert ch + [] == ch && Grown(fat0, fat0, ch, []) by { assert Elements<int>([]) == {}; }
    if ch != [] { assert LinkAt(fat0, ch, 0); }
    if node.inode < 2 {
      var c := FatAllocCluster(v);
      if c == 0 { return false, []; }
      node.inode := c;
      ext := [c];
      FirstCluster(v.g, fat0, c);
    }
    StartWritten(v.g, d0, v.disk, node.inode, ch, ext, offset);
    started := true;
  }

  /** The node's size and the directory entry on disk follow what was written. */
  method FinishWrite(v: Volume, node: Node, offset: nat, bytesWritten: nat,
                     ghost d0: seq<Sector>, ghost ch: seq<int>, ghost ext: seq<int>, ghost data: seq<Byte>)
    requires v.g.Fits(d0) && offset < 0x1_0000_0000 && |data| == bytesWritten
    requires Written(v.g, d0, v.disk, node.inode, Fat(v.g, d0), ch, ext, offset, data)
    requires 0 <= node.inode < 0x1_0000 && 0 <= node.size < 0x1_0000_0000
    requires v.g.RootLba() <= node.dirLba < |v.disk| && 0 <= node.dirIndex < 16
    requires EntrySafe(v.g, Fat(v.g, d0), ch, node.dirLba)
    modifies v, node`size
    ensures v.Ready() && node.size == Max(old(node.size), offset + bytesWritten) < 0x1_0000_0000
    ensures Stored(v.g, d0, v.disk, ch, ext, offset, data, node.dirLba, node.dirIndex, node.inode, node.size)
    ensures Fat(v.g, v.disk) == Fat(v.g, old(v.disk))
  {
    hide Content, Splice, SameElsewhere, Chain, Grown, Clusters, Fat, Stored, EntrySafe, CopiesAgree;
    NoWrap(v.g, d0, v.disk, node.inode, Fat(v.g, d0), ch, ext, offset, data);
    var newSize := Add32(offset, bytesWritten);
    if newSize > node.size { node.size := newSize; }
    EntryStored(v.g, d0, v.disk, ch, ext, offset, data, node.dirLba, node.dirIndex, node.inode, node.size);
    FatRegion(v.g, d0);
    var dsec := v.disk[node.dirLba];
    v.disk := v.disk[node.dirLba := PutLocation(dsec, node.dirIndex, node.inode, node.size)];
    SameFatSectors(v.g, old(v.disk), v.disk);
  }

  lemma FirstCluster(g: Geometry, fat0: seq<int>, c: int)
    requires c in FreeSet(fat0)
    ensures Chain(fat0[c := 0xFFFF], c, [] + [c]) && Grown(fat0, fat0[c := 0xFFFF], [], [c])
  {
    assert LinkAt(fat0[c := 0xFFFF], [] + [c], 0);
    assert Elements([c]) == {c};
  }

  lemma StartWritten(g: Geometry, d0: seq<Sector>, d: seq<Sector>, first: int, ch: seq<int>, ext: seq<int>, offset: nat)
    requires g.Fits(d0) && SameOutsideFat(g, d0, d) && (CopiesAgree(g, d0) ==> CopiesAgree(g, d))
    requires Chain(Fat(g, d), first, ch + ext) && Grown(Fat(g, d0), Fat(g, d), ch, ext)
    ensures Written(g, d0, d, first, Fat(g, d0), ch, ext, offset, [])
  {
    ChainClusters(g, Fat(g, d), first, ch + ext);
    ContentOutsideFat(g, d0, d, ch + ext);
  }
}
