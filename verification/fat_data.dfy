/** The bytes that a chain of clusters holds. */
module FatData {
  import opened Bytes
  import opened FatLayout
  import opened FatTable

  // ---- Cluster contents ----

  ghost function ClusterData(g: Geometry, disk: seq<Sector>, c: int): (data: seq<Byte>)
    requires g.Fits(disk) && g.IsCluster(c)
    ensures |data| == g.ClusterBytes()
  {
    ClusterOnDisk(g, disk, c);
    seq(g.ClusterBytes(), k requires 0 <= k < g.ClusterBytes() =>
      disk[g.ClusterLba(c) + k / 512][k % 512])
  }

  lemma ClusterOnDisk(g: Geometry, disk: seq<Sector>, c: int)
    requires g.Fits(disk) && g.IsCluster(c)
    ensures g.RootLba() <= g.DataLba() <= g.ClusterLba(c)
    ensures g.ClusterLba(c) + g.sectorsPerCluster <= |disk|
  {
    Layout(g);
    ClusterInData(g, g.ClusterLba(c), c);
    ClusterOrder(g, c, g.Entries());
  }

  ghost predicate Clusters(g: Geometry, ch: seq<int>) {
    forall i :: 0 <= i < |ch| ==> g.IsCluster(ch[i])
  }

  /** The clusters of a chain, one after the other. */
  ghost function Content(g: Geometry, disk: seq<Sector>, ch: seq<int>): (data: seq<Byte>)
    requires g.Fits(disk) && Clusters(g, ch)
    ensures |data| == Times(|ch|, g.ClusterBytes())
  {
    if ch == [] then [] else
      var n := |ch| - 1;
      Content(g, disk, ch[..n]) + ClusterData(g, disk, ch[n])
  }

  /** Byte r of the i-th cluster is byte i * ClusterBytes + r of the content. */
  lemma {:induction false} ContentSlice(g: Geometry, disk: seq<Sector>, ch: seq<int>, i: nat)
    requires g.Fits(disk) && Clusters(g, ch) && i < |ch|
    ensures Times(i, g.ClusterBytes()) + g.ClusterBytes() <= Times(|ch|, g.ClusterBytes())
    ensures var at := Times(i, g.ClusterBytes());
      Content(g, disk, ch)[at..at + g.ClusterBytes()] == ClusterData(g, disk, ch[i])
    decreases |ch|
  {
    var n := |ch| - 1;
    MulOrder(i, |ch|, g.ClusterBytes());
    if i < n {
      ContentSlice(g, disk, ch[..n], i);
      assert ch[..n][i] == ch[i];
    }
  }

  lemma {:induction false} ContentPrefix(g: Geometry, disk: seq<Sector>, ch: seq<int>, more: seq<int>)
    requires g.Fits(disk) && Clusters(g, ch + more)
    ensures Clusters(g, ch) && Content(g, disk, ch) <= Content(g, disk, ch + more)
    decreases |more|
  {
    assert forall i :: 0 <= i < |ch| ==> ch[i] == (ch + more)[i];
    if more == [] {
      assert ch + more == ch;
    } else {
      var n := |more| - 1;
      assert ch + more == (ch + more[..n]) + [more[n]];
      assert (ch + more)[..|ch + more| - 1] == ch + more[..n];
      ContentPrefix(g, disk, ch, more[..n]);
    }
  }

  ghost predicate SameCluster(g: Geometry, d0: seq<Sector>, d1: seq<Sector>, c: int)
    requires |d1| == |d0|
  {
    forall lba :: 0 <= lba < |d0| && g.InCluster(lba, c) ==> d1[lba] == d0[lba]
  }

  lemma SameData(g: Geometry, d0: seq<Sector>, d1: seq<Sector>, c: int)
    requires g.Fits(d0) && |d1| == |d0| && g.IsCluster(c) && SameCluster(g, d0, d1, c)
    ensures ClusterData(g, d1, c) == ClusterData(g, d0, c)
  {
    ClusterOnDisk(g, d0, c);
    var lba := g.ClusterLba(c);
    forall k | 0 <= k < g.ClusterBytes() ensures ClusterData(g, d1, c)[k] == ClusterData(g, d0, c)[k] {
      assert g.InCluster(lba + k / 512, c);
    }
  }

  lemma {:induction false} ContentFrame(g: Geometry, d0: seq<Sector>, d1: seq<Sector>, ch: seq<int>)
    requires g.Fits(d0) && |d1| == |d0| && Clusters(g, ch)
    requires forall i :: 0 <= i < |ch| ==> SameCluster(g, d0, d1, ch[i])
    ensures Content(g, d1, ch) == Content(g, d0, ch)
    decreases |ch|
  {
    if ch != [] {
      var n := |ch| - 1;
      ContentFrame(g, d0, d1, ch[..n]);
      SameData(g, d0, d1, ch[n]);
    }
  }

  lemma ContentOutsideFat(g: Geometry, d0: seq<Sector>, d1: seq<Sector>, ch: seq<int>)
    requires g.Fits(d0) && Clusters(g, ch) && SameOutsideFat(g, d0, d1)
    ensures Content(g, d1, ch) == Content(g, d0, ch)
  {
    forall i | 0 <= i < |ch| ensures SameCluster(g, d0, d1, ch[i]) { ClusterOnDisk(g, d0, ch[i]); }
    ContentFrame(g, d0, d1, ch);
  }

  /** `s` with the bytes from `off` on replaced by `t`, when there is room for them. */
  function Splice(s: seq<Byte>, off: nat, t: seq<Byte>): (r: seq<Byte>)
    ensures |r| == |s|
  {
    if t == [] || off + |t| > |s| then s else s[..off] + t + s[off + |t|..]
  }

  lemma SpliceIndex(s: seq<Byte>, off: nat, t: seq<Byte>, i: nat)
    requires off + |t| <= |s| && i < |s|
    ensures Splice(s, off, t)[i] == if off <= i < off + |t| then t[i - off] else s[i]
  {
  }

  lemma SpliceMore(s: seq<Byte>, off: nat, t: seq<Byte>, u: seq<Byte>)
    requires off + |t| + |u| <= |s|
    ensures Splice(Splice(s, off, t), off + |t|, u) == Splice(s, off, t + u)
  {
    hide Splice;
    var mid := Splice(s, off, t);
    var l, r := Splice(mid, off + |t|, u), Splice(s, off, t + u);
    forall i | 0 <= i < |s| ensures l[i] == r[i] {
      SpliceIndex(mid, off + |t|, u, i);
      SpliceIndex(s, off, t, i);
      SpliceIndex(s, off, t + u, i);
    }
  }

  lemma SpliceNone(s: seq<Byte>, off: nat)
    ensures Splice(s, off, []) == s
  {
  }

  lemma SpliceByte(s: seq<Byte>, off: nat, t: seq<Byte>, b: Byte)
    requires off + |t| < |s|
    ensures Splice(s, off, t)[off + |t| := b] == Splice(s, off, t + [b])
  {
    SpliceMore(s, off, t, [b]);
    var r := Splice(s, off, t);
    assert Splice(r, off + |t|, [b]) == r[off + |t| := b];
  }

  lemma SpliceLeft(a: seq<Byte>, b: seq<Byte>, off: nat, t: seq<Byte>)
    requires off + |t| <= |a|
    ensures Splice(a + b, off, t) == Splice(a, off, t) + b
  {
    hide Splice;
    var l, r := Splice(a + b, off, t), Splice(a, off, t) + b;
    forall i | 0 <= i < |a + b| ensures l[i] == r[i] {
      SpliceIndex(a + b, off, t, i);
      if i < |a| { SpliceIndex(a, off, t, i); }
    }
  }

  lemma SpliceRight(a: seq<Byte>, b: seq<Byte>, t: seq<Byte>)
    requires |t| == |b|
    ensures Splice(a + b, |a|, t) == a + t
  {
  }

  lemma SameFits(g: Geometry, d0: seq<Sector>, d1: seq<Sector>)
    requires g.Fits(d0) && |d1| == |d0|
    ensures g.Fits(d1)
  {
  }

  /** Rewriting one cluster of a chain splices the content at that cluster. */
  lemma {:induction false} ContentUpdate(g: Geometry, d0: seq<Sector>, d1: seq<Sector>, ch: seq<int>, i: nat)
    requires g.Fits(d0) && |d1| == |d0| && Clusters(g, ch) && i < |ch|
    requires forall j :: 0 <= j < |ch| && j != i ==> SameCluster(g, d0, d1, ch[j])
    ensures Content(g, d1, ch) == Splice(Content(g, d0, ch), Times(i, g.ClusterBytes()), ClusterData(g, d1, ch[i]))
    decreases |ch|
  {
    hide Splice, Geometry.Fits, Geometry.ClusterBytes, SameCluster, ClusterData;
    SameFits(g, d0, d1);
    var n := |ch| - 1;
    MulOrder(i, |ch|, g.ClusterBytes());
    if i < n {
      ContentUpdate(g, d0, d1, ch[..n], i);
      SameData(g, d0, d1, ch[n]);
      MulOrder(i, n, g.ClusterBytes());
      SpliceLeft(Content(g, d0, ch[..n]), ClusterData(g, d0, ch[n]), Times(i, g.ClusterBytes()),
                 ClusterData(g, d1, ch[i]));
    } else {
      ContentFrame(g, d0, d1, ch[..n]);
      SpliceRight(Content(g, d0, ch[..n]), ClusterData(g, d0, ch[n]), ClusterData(g, d1, ch[n]));
    }
  }

  // ---- Reading and writing one cluster ----

  method ReadCluster(v: Volume, cluster: int, cbuf: array<Byte>)
    requires v.Ready() && v.g.IsCluster(cluster) && cbuf.Length == v.g.ClusterBytes()
    modifies cbuf
    ensures cbuf[..] == ClusterData(v.g, v.disk, cluster)
  {
    ClusterOnDisk(v.g, v.disk, cluster);
    var lba := v.g.ClusterLba(cluster);
    ghost var data := ClusterData(v.g, v.disk, cluster);
    for i := 0 to v.g.sectorsPerCluster
      invariant cbuf[..i * 512] == data[..i * 512]
    {
      SectorOfCluster(v.g, v.disk, cluster, i);
      ReadSector(v.disk[lba + i], cbuf, i * 512);
      assert data[..(i + 1) * 512] == data[..i * 512] + data[i * 512..i * 512 + 512];
    }
    assert cbuf[..] == cbuf[..v.g.sectorsPerCluster * 512];
  }

  lemma SectorOfCluster(g: Geometry, disk: seq<Sector>, c: int, i: nat)
    requires g.Fits(disk) && g.IsCluster(c) && i < g.sectorsPerCluster
    ensures 0 <= g.ClusterLba(c) && g.ClusterLba(c) + i < |disk|
    ensures ClusterData(g, disk, c)[i * 512..i * 512 + 512] == disk[g.ClusterLba(c) + i]
  {
    ClusterOnDisk(g, disk, c);
  }

  method ReadSector(sector: Sector, buf: array<Byte>, at: nat)
    requires at + 512 <= buf.Length
    modifies buf
    ensures buf[..] == old(buf[..at]) + sector + old(buf[at + 512..])
  {
    forall k | 0 <= k < 512 {
      buf[at + k] := sector[k];
    }
  }

  method WriteCluster(v: Volume, cluster: int, cbuf: array<Byte>)
    requires v.Ready() && v.g.IsCluster(cluster) && cbuf.Length == v.g.ClusterBytes()
    modifies v
    ensures v.Ready() && |v.disk| == |old(v.disk)|
    ensures ClusterData(v.g, v.disk, cluster) == cbuf[..]
    ensures forall lba :: 0 <= lba < |v.disk| && !v.g.InCluster(lba, cluster) ==> v.disk[lba] == old(v.disk)[lba]
  {
    ClusterOnDisk(v.g, v.disk, cluster);
    var lba := v.g.ClusterLba(cluster);
    for s := 0 to v.g.sectorsPerCluster
      invariant |v.disk| == |old(v.disk)|
      invariant forall k :: 0 <= k < s * 512 ==> v.disk[lba + k / 512][k % 512] == cbuf[k]
      invariant forall l :: 0 <= l < |v.disk| && !(lba <= l < lba + s) ==> v.disk[l] == old(v.disk)[l]
    {
      var sector: Sector := cbuf[s * 512..s * 512 + 512];
      v.disk := v.disk[lba + s := sector];
    }
  }
}
